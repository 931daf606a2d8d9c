// Downloading a table by a paged scan, and what a download followed by an upload
// reproduces.
module Download {
  import opened Octets
  import opened Wrappers
  import opened Blob
  import opened Transfer

  // One scanned row: an item with exactly the four blob attributes, or anything else.
  datatype Row = BlobRow(item: Item) | OtherRow(key: string)

  predicate IsHex(c: char) { '0' <= c <= '9' || 'a' <= c <= 'f' }

  // Eight, four, four, four and twelve hexadecimal digits with hyphens, then ".ksv".
  predicate IsBlobName(name: string) {
    && |name| == 40
    && (forall i :: 0 <= i < 36 ==>
          if i == 8 || i == 13 || i == 18 || i == 23 then name[i] == '-' else IsHex(name[i]))
    && name[36..] == ".ksv"
  }

  // A run of this many hexadecimal digits in lower case.
  predicate HexRun(s: string, n: nat) { |s| == n && forall i :: 0 <= i < n ==> s[i] in "0123456789abcdef" }

  // The name of a blob file is a UUID in lower case and the extension.
  lemma {:induction false} BlobNameIs(name: string)
    ensures IsBlobName(name) <==>
              |name| == 40 && HexRun(name[..8], 8) && HexRun(name[9..13], 4) && HexRun(name[14..18], 4)
              && HexRun(name[19..23], 4) && HexRun(name[24..36], 12)
              && name[8] == name[13] == name[18] == name[23] == '-' && name[36..] == ".ksv"
  {
    forall c: char ensures IsHex(c) <==> c in "0123456789abcdef" {
      HexDigits(c);
    }
    hide IsHex;
    if |name| == 40 && HexRun(name[..8], 8) && HexRun(name[9..13], 4) && HexRun(name[14..18], 4)
       && HexRun(name[19..23], 4) && HexRun(name[24..36], 12) && name[8] == name[13] == name[18] == name[23] == '-' {
      forall i | 0 <= i < 36 && i != 8 && i != 13 && i != 18 && i != 23 ensures IsHex(name[i]) {
        if i < 8 {
          assert name[..8][i] == name[i];
        } else if i < 13 {
          assert name[9..13][i - 9] == name[i];
        } else if i < 18 {
          assert name[14..18][i - 14] == name[i];
        } else if i < 23 {
          assert name[19..23][i - 19] == name[i];
        } else {
          assert name[24..36][i - 24] == name[i];
        }
      }
    }
  }

  lemma {:induction false} HexDigits(c: char)
    ensures IsHex(c) <==> c in "0123456789abcdef"
  {
    var digits := "0123456789abcdef";
    if IsHex(c) {
      var i := if c <= '9' then c as int - '0' as int else c as int - 'a' as int + 10;
      assert digits[i] == c;
    }
  }

  predicate Expected(row: Row)
    ensures Expected(row) ==> row.BlobRow?
  {
    row.BlobRow? && IsBlobName(row.item.key)
  }

  predicate AllExpected(rows: seq<Row>) { forall i :: 0 <= i < |rows| ==> Expected(rows[i]) }

  function Rows(pages: seq<seq<Row>>): seq<Row> {
    if pages == [] then [] else Rows(pages[..|pages| - 1]) + pages[|pages| - 1]
  }

  function JoinedBytes(rows: seq<Row>): nat
    requires AllExpected(rows)
  {
    if rows == [] then 0 else JoinedBytes(rows[..|rows| - 1]) + |Join(rows[|rows| - 1].item)|
  }

  // The files that the rows are written to.
  function Directory(rows: seq<Row>): map<string, seq<Byte>>
    requires AllExpected(rows)
  {
    if rows == [] then map[]
    else Directory(rows[..|rows| - 1])[rows[|rows| - 1].item.key := Join(rows[|rows| - 1].item)]
  }

  predicate Accepted(rows: seq<Row>) {
    && rows != []
    && AllExpected(rows)
    && JoinedBytes(rows) <= 3221225472
  }

  lemma {:induction false} JoinedGrows(rows: seq<Row>, n: nat)
    requires n <= |rows|
    requires AllExpected(rows)
    ensures JoinedBytes(rows[..n]) <= JoinedBytes(rows)
  {
    if n < |rows| {
      JoinedGrows(rows[..|rows| - 1], n);
      assert rows[..|rows| - 1][..n] == rows[..n];
    } else {
      assert rows[..n] == rows;
    }
  }

  lemma {:induction false} Snoc(rows: seq<Row>, row: Row)
    requires Expected(row) && AllExpected(rows)
    ensures AllExpected(rows + [row])
    ensures JoinedBytes(rows + [row]) == JoinedBytes(rows) + |Join(row.item)|
    ensures Directory(rows + [row]) == Directory(rows)[row.item.key := Join(row.item)]
  {
    assert (rows + [row])[..|rows|] == rows;
  }

  // The scan loop. `pages` is what the service answers, the last page being the one
  // without a key to continue from; a page may be empty. The files written so far,
  // their number and their size are the loop's own variables.
  method DownloadTable(pages: seq<seq<Row>>) returns (directory: Option<map<string, seq<Byte>>>)
    ensures directory.Some? <==> Accepted(Rows(pages))
    ensures directory.Some? ==> directory.value == Directory(Rows(pages))
  {
    hide Expected, Rows, JoinedBytes, Directory;
    var files: map<string, seq<Byte>> := map[];
    var size, count := 0, 0;
    ghost var seen: seq<Row> := [];
    Nothing();
    assert pages[..0] == [];
    for p := 0 to |pages|
      invariant seen == Rows(pages[..p]) && count == |seen|
      invariant AllExpected(seen)
      invariant size == JoinedBytes(seen) <= MAXIMUM_SOURCE_BYTES && files == Directory(seen)
    {
      RowsStep(pages, p);
      for i := 0 to |pages[p]|
        invariant seen == Rows(pages[..p]) + pages[p][..i] && count == |seen|
        invariant AllExpected(seen)
        invariant size == JoinedBytes(seen) <= MAXIMUM_SOURCE_BYTES && files == Directory(seen)
      {
        var row := pages[p][i];
        assert pages[p][..i + 1] == pages[p][..i] + [row];
        RowsPrefix(pages, p, i + 1);
        assert seen + [row] <= Rows(pages);
        assert Rows(pages)[|seen|] == (seen + [row])[|seen|];
        if !Expected(row) {
          return None;
        }
        var content := Join(row.item);
        Snoc(seen, row);
        size := size + |content|;
        if size > MAXIMUM_SOURCE_BYTES {
          TooLarge(Rows(pages), seen + [row]);
          return None;
        }
        files := files[row.item.key := content];
        count := count + 1;
        seen := seen + [row];
      }
      assert pages[p][..|pages[p]|] == pages[p];
    }
    assert pages[..|pages|] == pages;
    if count == 0 {
      return None;
    }
    return Some(files);
  }

  lemma {:induction false} Nothing()
    ensures Rows([]) == [] && JoinedBytes([]) == 0 && Directory([]) == map[]
  {
  }

  lemma {:induction false} RowsStep(pages: seq<seq<Row>>, p: nat)
    requires p < |pages|
    ensures Rows(pages[..p + 1]) == Rows(pages[..p]) + pages[p]
    ensures pages[p][..0] == []
  {
    assert pages[..p + 1][..p] == pages[..p];
  }

  lemma {:induction false} RowsPrefix(pages: seq<seq<Row>>, p: nat, n: nat)
    requires p < |pages| && n <= |pages[p]|
    ensures Rows(pages[..p]) + pages[p][..n] <= Rows(pages)
    decreases |pages|
  {
    var front := pages[..|pages| - 1];
    if p < |front| {
      RowsPrefix(front, p, n);
      assert front[..p] == pages[..p];
    } else {
      assert pages[p] == pages[p][..n] + pages[p][n..];
    }
  }

  lemma {:induction false} TooLarge(rows: seq<Row>, prefix: seq<Row>)
    requires prefix <= rows
    requires AllExpected(prefix)
    requires JoinedBytes(prefix) > MAXIMUM_SOURCE_BYTES
    ensures !Accepted(rows)
  {
    hide JoinedBytes, Expected;
    if AllExpected(rows) {
      JoinedGrows(rows, |prefix|);
      assert rows[..|prefix|] == prefix;
    }
  }

  // ---------- Download, then upload ----------

  function RowsOf(items: seq<Item>): (rows: seq<Row>)
    ensures |rows| == |items| && forall i :: 0 <= i < |items| ==> rows[i] == BlobRow(items[i])
  {
    seq(|items|, i requires 0 <= i < |items| => BlobRow(items[i]))
  }

  predicate BlobNames(items: seq<Item>) { forall i :: 0 <= i < |items| ==> IsBlobName(items[i].key) }

  // A listing of the files of a directory, in any order.
  predicate Lists(files: seq<File>, directory: map<string, seq<Byte>>) {
    && DistinctNames(files)
    && (forall i :: 0 <= i < |files| ==> files[i].name in directory && directory[files[i].name] == files[i].content)
    && (forall name :: name in directory ==> exists i :: 0 <= i < |files| && files[i].name == name)
  }

  lemma {:induction false} DirectoryStep(items: seq<Item>)
    requires items != [] && BlobNames(items)
    ensures var front, last := items[..|items| - 1], items[|items| - 1];
            && BlobNames(front)
            && Directory(RowsOf(items)) == Directory(RowsOf(front))[last.key := Join(last)]
            && JoinedBytes(RowsOf(items)) == JoinedBytes(RowsOf(front)) + |Join(last)|
  {
    hide Join, IsBlobName;
    assert RowsOf(items)[..|items| - 1] == RowsOf(items[..|items| - 1]);
  }

  lemma {:induction false} DirectoryReads(items: seq<Item>)
    requires DistinctKeys(items) && BlobNames(items)
    ensures var d := Directory(RowsOf(items));
            && (forall i :: 0 <= i < |items| ==> items[i].key in d && d[items[i].key] == Join(items[i]))
            && (forall k :: k in d ==> exists i :: 0 <= i < |items| && items[i].key == k)
  {
    hide Join, IsBlobName;
    if items != [] {
      DirectoryStep(items);
      hide Directory, RowsOf;
      var front, last := items[..|items| - 1], items[|items| - 1];
      DirectoryReads(front);
      var d, d' := Directory(RowsOf(front)), Directory(RowsOf(items));
      forall k | k in d' ensures exists i :: 0 <= i < |items| && items[i].key == k {
        if k == last.key {
          assert items[|items| - 1].key == k;
        } else {
          var i :| 0 <= i < |front| && front[i].key == k;
          assert items[i].key == k;
        }
      }
      forall i | 0 <= i < |items| ensures items[i].key in d' && d'[items[i].key] == Join(items[i]) {
        if i < |front| {
          assert items[i] == front[i];
        }
      }
    }
  }

  // Uploading what was downloaded passes the checks and reproduces the table
  // exactly when every item of it is well formed.
  lemma {:induction false} DownloadThenUpload(items: seq<Item>, files: seq<File>)
    requires DistinctKeys(items) && BlobNames(items)
    requires Lists(files, Directory(RowsOf(items)))
    ensures AllValid(files) && AsMap(ItemsOf(files)) == AsMap(items)
            <==> forall i :: 0 <= i < |items| ==> WellFormed(items[i])
  {
    hide AsMap, Directory, WellFormed, IsBlobName, Join, BlobItem, RowsOf;
    DirectoryReads(items);
    AsMapReads(items);
    if forall i :: 0 <= i < |items| ==> WellFormed(items[i]) {
      Reproduced(items, files, Directory(RowsOf(items)));
    }
    if AllValid(files) && AsMap(ItemsOf(files)) == AsMap(items) {
      assert DistinctKeys(ItemsOf(files)) by { KeysAreNames(files); }
      AsMapReads(ItemsOf(files));
      forall i | 0 <= i < |items| ensures WellFormed(items[i]) {
        var k := items[i].key;
        assert k in AsMap(ItemsOf(files));
        var j :| 0 <= j < |files| && ItemsOf(files)[j].key == k;
        BlobItemIsInverseOfJoin(files[j].name, files[j].content, ItemsOf(files)[j]);
      }
    }
  }

  lemma {:induction false} KeysAreNames(files: seq<File>)
    requires AllValid(files) && DistinctNames(files)
    ensures forall i :: 0 <= i < |files| ==> ItemsOf(files)[i].key == files[i].name
    ensures DistinctKeys(ItemsOf(files))
  {
    hide WellFormed, Join;
    forall i | 0 <= i < |files| ensures ItemsOf(files)[i].key == files[i].name {
      BlobItemIsInverseOfJoin(files[i].name, files[i].content, ItemsOf(files)[i]);
    }
  }

  lemma {:induction false} Reproduced(items: seq<Item>, files: seq<File>, d: map<string, seq<Byte>>)
    requires DistinctKeys(items) && Lists(files, d)
    requires forall i :: 0 <= i < |items| ==> items[i].key in d && d[items[i].key] == Join(items[i])
    requires forall k :: k in d ==> exists i :: 0 <= i < |items| && items[i].key == k
    requires forall i :: 0 <= i < |items| ==> WellFormed(items[i])
    ensures AllValid(files) && AsMap(ItemsOf(files)) == AsMap(items)
  {
    hide AsMap, WellFormed, Join, BlobItem;
    AsMapReads(items);
    forall j | 0 <= j < |files|
      ensures BlobItem(files[j].name, files[j].content).Some?
      ensures files[j].name in AsMap(items) && BlobItem(files[j].name, files[j].content) == Some(AsMap(items)[files[j].name])
    {
      var i :| 0 <= i < |items| && items[i].key == files[j].name;
      BlobItemIsInverseOfJoin(files[j].name, files[j].content, items[i]);
    }
    assert AllValid(files);
    KeysAreNames(files);
    AsMapReads(ItemsOf(files));
    SameMaps(items, files, d);
  }

  lemma {:induction false} SameMaps(items: seq<Item>, files: seq<File>, d: map<string, seq<Byte>>)
    requires DistinctKeys(items) && Lists(files, d) && AllValid(files)
    requires forall i :: 0 <= i < |items| ==> items[i].key in d
    requires forall j :: 0 <= j < |files| ==> files[j].name in AsMap(items) && ItemsOf(files)[j] == AsMap(items)[files[j].name]
    ensures AsMap(ItemsOf(files)) == AsMap(items)
  {
    hide AsMap, BlobItem;
    KeysAreNames(files);
    AsMapReads(items);
    AsMapReads(ItemsOf(files));
    var a, b := AsMap(ItemsOf(files)), AsMap(items);
    forall k | k in a ensures k in b && a[k] == b[k] {
      var j :| 0 <= j < |files| && ItemsOf(files)[j].key == k;
    }
    forall k | k in b ensures k in a {
      var i :| 0 <= i < |items| && items[i].key == k;
      var j :| 0 <= j < |files| && files[j].name == k;
      assert ItemsOf(files)[j].key == k;
    }
  }

  // ---------- The two loops together ----------

  predicate Named(files: seq<File>, name: string) { exists i :: 0 <= i < |files| && files[i].name == name }

  predicate ListsPart(files: seq<File>, directory: map<string, seq<Byte>>) {
    DistinctNames(files)
    && forall i :: 0 <= i < |files| ==> files[i].name in directory && directory[files[i].name] == files[i].content
  }

  // The files of a directory, as its listing gives them.
  method ListFiles(directory: map<string, seq<Byte>>) returns (files: seq<File>)
    ensures Lists(files, directory)
  {
    hide Named, ListsPart, Lists;
    var rest := directory;
    files := [];
    ListedNothing(directory);
    while rest != map[]
      invariant ListsPart(files, directory)
      invariant forall name :: name in directory ==> name in rest || Named(files, name)
      invariant forall name :: name in rest ==> name in directory && !Named(files, name)
      decreases |rest|
    {
      var name :| name in rest;
      ListedOneMore(files, directory, name);
      files := files + [File(name, directory[name])];
      rest := rest - {name};
    }
    ListedAll(files, directory);
  }

  lemma {:induction false} ListedNothing(directory: map<string, seq<Byte>>)
    ensures ListsPart([], directory) && forall name :: !Named([], name)
  {
  }

  lemma {:induction false} ListedOneMore(files: seq<File>, directory: map<string, seq<Byte>>, name: string)
    requires ListsPart(files, directory) && name in directory && !Named(files, name)
    ensures var more := files + [File(name, directory[name])];
            ListsPart(more, directory) && forall n :: Named(more, n) <==> n == name || Named(files, n)
  {
    var more := files + [File(name, directory[name])];
    forall n | n == name || Named(files, n) ensures Named(more, n) {
      if n == name {
        assert more[|files|].name == n;
      } else {
        var i :| 0 <= i < |files| && files[i].name == n;
        assert more[i].name == n;
      }
    }
  }

  lemma {:induction false} ListedAll(files: seq<File>, directory: map<string, seq<Byte>>)
    requires ListsPart(files, directory) && forall name :: name in directory ==> Named(files, name)
    ensures Lists(files, directory)
  {
    forall name | name in directory ensures exists i :: 0 <= i < |files| && files[i].name == name {
      assert Named(files, name);
    }
  }

  lemma {:induction false} TotalRemoves(files: seq<File>, j: nat)
    requires j < |files|
    ensures TotalBytes(files) == TotalBytes(files[..j] + files[j + 1..]) + |files[j].content|
  {
    var front, rest := files[..|files| - 1], files[..j] + files[j + 1..];
    if j < |front| {
      TotalRemoves(front, j);
      assert rest[..|rest| - 1] == front[..j] + front[j + 1..];
      assert rest[|rest| - 1] == files[|files| - 1];
    } else {
      assert rest == front;
    }
  }

  lemma {:induction false} RestIsDistinct(files: seq<File>, j: nat)
    requires DistinctNames(files) && j < |files|
    ensures DistinctNames(files[..j] + files[j + 1..])
    ensures forall i :: 0 <= i < |files| && i != j ==> files[i].name != files[j].name
    ensures var rest := files[..j] + files[j + 1..];
            forall i :: 0 <= i < |rest| ==> rest[i] == files[if i < j then i else i + 1]
  {
  }

  // Taking a file from a directory takes it from the listing.
  lemma {:induction false} RestLists(files: seq<File>, d: map<string, seq<Byte>>, name: string, content: seq<Byte>, j: nat)
    requires name !in d && Lists(files, d[name := content]) && j < |files| && files[j].name == name
    ensures files[j].content == content
    ensures Lists(files[..j] + files[j + 1..], d)
  {
    hide DistinctNames;
    var rest := files[..j] + files[j + 1..];
    RestIsDistinct(files, j);
    forall n | n in d ensures exists i :: 0 <= i < |rest| && rest[i].name == n {
      assert n in d[name := content];
      var i :| 0 <= i < |files| && files[i].name == n;
      assert rest[if i < j then i else i - 1].name == n;
    }
  }

  lemma {:induction false} LastRow(items: seq<Item>)
    requires items != [] && DistinctKeys(items) && BlobNames(items)
    ensures var front, last := items[..|items| - 1], items[|items| - 1];
            && DistinctKeys(front) && BlobNames(front)
            && Directory(RowsOf(items)) == Directory(RowsOf(front))[last.key := Join(last)]
            && last.key !in Directory(RowsOf(front))
            && JoinedBytes(RowsOf(items)) == JoinedBytes(RowsOf(front)) + |Join(last)|
  {
    hide Join, IsBlobName, Directory, RowsOf, JoinedBytes;
    DirectoryStep(items);
    DirectoryReads(items[..|items| - 1]);
  }

  // Whatever their order, the files of a download are as large as its rows.
  lemma {:induction false} TotalOfListing(items: seq<Item>, files: seq<File>)
    requires DistinctKeys(items) && BlobNames(items)
    requires Lists(files, Directory(RowsOf(items)))
    ensures TotalBytes(files) == JoinedBytes(RowsOf(items)) && |files| == |items|
  {
    if items == [] {
      if files != [] {
        NothingHasNoFile(files);
      }
    } else {
      hide Join, Lists, TotalBytes, Directory, RowsOf, JoinedBytes;
      LastRow(items);
      var front, last := items[..|items| - 1], items[|items| - 1];
      var j := FileOf(files, Directory(RowsOf(items)), last.key);
      TotalRemoves(files, j);
      RestLists(files, Directory(RowsOf(front)), last.key, Join(last), j);
      TotalOfListing(front, files[..j] + files[j + 1..]);
    }
  }

  lemma {:induction false} FileOf(files: seq<File>, d: map<string, seq<Byte>>, name: string) returns (j: nat)
    requires Lists(files, d) && name in d
    ensures j < |files| && files[j].name == name
  {
    j :| 0 <= j < |files| && files[j].name == name;
  }

  lemma {:induction false} NothingHasNoFile(files: seq<File>)
    requires files != []
    ensures !Lists(files, map[])
  {
    var name := files[0].name;
  }

  // The listing of a download splits into items exactly when every row does.
  lemma {:induction false} ValidListing(items: seq<Item>, files: seq<File>)
    requires DistinctKeys(items) && BlobNames(items)
    requires Lists(files, Directory(RowsOf(items)))
    ensures AllValid(files) <==> forall i :: 0 <= i < |items| ==> Splits(items[i])
  {
    hide Join, IsBlobName, Directory, BlobItem, RowsOf, DistinctKeys, DistinctNames;
    DirectoryReads(items);
    var d := Directory(RowsOf(items));
    if AllValid(files) {
      forall i | 0 <= i < |items| ensures Splits(items[i]) {
        var j := FileOf(files, d, items[i].key);
        assert ValidFile(files[j]);
      }
    }
    if forall i :: 0 <= i < |items| ==> Splits(items[i]) {
      forall j | 0 <= j < |files| ensures ValidFile(files[j]) {
        var i :| 0 <= i < |items| && items[i].key == files[j].name;
        assert Splits(items[i]);
      }
    }
  }

  // The joined row splits into some item again.
  predicate Splits(item: Item) { BlobItem(item.key, Join(item)).Some? }

  lemma {:induction false} WellFormedSplits(item: Item)
    requires WellFormed(item)
    ensures Splits(item)
  {
    hide Join, WellFormed;
    BlobItemIsInverseOfJoin(item.key, Join(item), item);
  }

  datatype Copy = NotDownloaded | Copied(upload: Outcome)

  // Downloading a table and uploading what was downloaded to an empty one. The items are
  // those of the table, each once, however the scan pages them. An accepted download
  // passes the size limit of the upload, so the upload is refused exactly for a row that
  // does not split again; and when it returns normally the two tables are equal exactly
  // when every item is well formed.
  method CopyTable(ghost items: seq<Item>, pages: seq<seq<Row>>, table: Table) returns (copy: Copy)
    requires DistinctKeys(items) && Rows(pages) == RowsOf(items) && table.Valid() && table.items == map[]
    modifies table
    ensures table.Valid() && old(table.responses) <= table.responses
    ensures copy.NotDownloaded? <==> !Accepted(RowsOf(items))
    ensures copy == Copied(Refused) <==>
              Accepted(RowsOf(items)) && !(forall i :: 0 <= i < |items| ==> Splits(items[i]))
    ensures copy.NotDownloaded? || copy == Copied(Refused) ==>
              table.items == map[] && table.requests == old(table.requests)
    ensures copy == Copied(Uploaded) ==>
              (table.items == AsMap(items) <==> forall i :: 0 <= i < |items| ==> WellFormed(items[i]))
    ensures (forall i :: 0 <= i < |items| ==> WellFormed(items[i])) ==>
              copy != Copied(Refused) && StoredPart(map[], AsMap(items), table.items)
    ensures copy.Copied? && copy.upload != Refused ==>
              && DecidedBy(copy.upload, table.responses[|old(table.responses)|..])
              && (NothingHandedBack(table.responses[|old(table.responses)|..]) ==> copy.upload.Uploaded?)
  {
    hide Rows, RowsOf, Directory, AsMap, WellFormed, Splits, IsBlobName, JoinedBytes, StoredPart, RequestsInBatches, Lists,
      Accepted, AllValid, DecidedBy, NothingHandedBack, UploadCalls;
    NothingStored(AsMap(items));
    var directory := DownloadTable(pages);
    if directory.None? {
      return NotDownloaded;
    }
    AcceptedNames(items);
    var files := ListFiles(directory.value);
    ListsNames(files, directory.value);
    TotalOfListing(items, files);
    ValidListing(items, files);
    DownloadThenUpload(items, files);
    WellFormedSplit(items);
    var outcome := Upload(table, files);
    if outcome.Uploaded? {
      assert table.items == AsMap(ItemsOf(files)) by { MapOnEmpty(AsMap(ItemsOf(files))); }
    }
    return Copied(outcome);
  }

  lemma {:induction false} MapOnEmpty(m: map<string, Item>)
    ensures map[] + m == m
  {
  }

  lemma {:induction false} WellFormedSplit(items: seq<Item>)
    ensures (forall i :: 0 <= i < |items| ==> WellFormed(items[i])) ==> forall i :: 0 <= i < |items| ==> Splits(items[i])
  {
    if forall i :: 0 <= i < |items| ==> WellFormed(items[i]) {
      forall i | 0 <= i < |items| ensures Splits(items[i]) {
        WellFormedSplits(items[i]);
      }
    }
  }

  lemma {:induction false} NothingStored(whole: map<string, Item>)
    ensures StoredPart(map[], whole, map[])
  {
  }

  lemma {:induction false} ListsNames(files: seq<File>, directory: map<string, seq<Byte>>)
    requires Lists(files, directory)
    ensures DistinctNames(files)
  {
  }

  lemma {:induction false} AcceptedNames(items: seq<Item>)
    requires Accepted(RowsOf(items))
    ensures BlobNames(items) && items != [] && JoinedBytes(RowsOf(items)) <= MAXIMUM_SOURCE_BYTES
  {
  }
}
