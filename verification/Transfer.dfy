// Uploading a directory of blobs to a table in batches, and downloading a table
// page by page.
module Transfer {
  import opened Octets
  import opened Wrappers
  import opened Blob

  const BATCH_ITEMS := 25
  const ATTEMPTS := 12
  const MAXIMUM_SOURCE_BYTES := 3221225472
  const MAXIMUM_TARGET_BYTES := 6442450944

  datatype File = File(name: string, content: seq<Byte>)

  function TotalBytes(files: seq<File>): nat {
    if files == [] then 0 else TotalBytes(files[..|files| - 1]) + |files[|files| - 1].content|
  }

  predicate ValidFile(f: File) { BlobItem(f.name, f.content).Some? }

  predicate AllValid(files: seq<File>) { forall i :: 0 <= i < |files| ==> ValidFile(files[i]) }

  // The items of valid files, in order.
  function ItemsOf(files: seq<File>): (items: seq<Item>)
    requires AllValid(files)
    ensures |items| == |files|
    ensures forall i :: 0 <= i < |files| ==> BlobItem(files[i].name, files[i].content) == Some(items[i])
  {
    seq(|files|, i requires 0 <= i < |files| && AllValid(files) => BlobItem(files[i].name, files[i].content).value)
  }

  // A set of put requests, by key.
  function AsMap(items: seq<Item>): map<string, Item> {
    if items == [] then map[] else AsMap(items[..|items| - 1])[items[|items| - 1].key := items[|items| - 1]]
  }

  lemma {:induction false} AsMapSize(items: seq<Item>)
    ensures |AsMap(items)| <= |items|
    ensures items != [] ==> AsMap(items) != map[]
  {
    if items != [] {
      AsMapSize(items[..|items| - 1]);
      var m, last := AsMap(items[..|items| - 1]), items[|items| - 1];
      assert m[last.key := last].Keys == m.Keys + {last.key};
      assert last.key in AsMap(items);
    }
  }

  lemma {:induction false} AsMapAppend(a: seq<Item>, b: seq<Item>)
    ensures AsMap(a + b) == AsMap(a) + AsMap(b)
  {
    if b == [] {
      assert a + b == a;
    } else {
      AsMapAppend(a, b[..|b| - 1]);
      assert (a + b)[..|a + b| - 1] == a + b[..|b| - 1];
    }
  }

  function Min(a: nat, b: nat): nat { if a < b then a else b }

  // The batches of at most 25 in which a list is uploaded.
  function Batches(items: seq<Item>): seq<seq<Item>> {
    if |items| <= BATCH_ITEMS then (if items == [] then [] else [items])
    else [items[..BATCH_ITEMS]] + Batches(items[BATCH_ITEMS..])
  }

  function Concat(batches: seq<seq<Item>>): seq<Item> {
    if batches == [] then [] else batches[0] + Concat(batches[1..])
  }

  // The batches are the list cut in order: each has 1 to 25 items and only the
  // last may have fewer than 25.
  lemma {:induction false} BatchesPartition(items: seq<Item>)
    ensures Concat(Batches(items)) == items
    ensures forall b :: 0 <= b < |Batches(items)| ==> 1 <= |Batches(items)[b]| <= 25
    ensures forall b :: 0 <= b < |Batches(items)| - 1 ==> |Batches(items)[b]| == 25
  {
    if |items| <= BATCH_ITEMS {
      if items != [] {
        assert Concat([items]) == items + Concat([]);
      }
    } else {
      BatchesPartition(items[BATCH_ITEMS..]);
      assert items == items[..BATCH_ITEMS] + items[BATCH_ITEMS..];
    }
  }

  lemma {:induction false} BatchAt(items: seq<Item>, b: nat)
    requires b * BATCH_ITEMS < |items|
    ensures b < |Batches(items)|
    ensures Batches(items)[b] == items[b * BATCH_ITEMS..Min(b * BATCH_ITEMS + BATCH_ITEMS, |items|)]
  {
    if b > 0 {
      hide Batches;
      var rest, lo := items[BATCH_ITEMS..], b * BATCH_ITEMS;
      var hi := Min(lo + BATCH_ITEMS, |items|);
      BatchAt(rest, b - 1);
      BatchOfRest(items, b);
      SliceOfRest(items, BATCH_ITEMS, lo, hi);
    }
  }

  lemma {:induction false} BatchOfRest(items: seq<Item>, b: nat)
    requires |items| > BATCH_ITEMS && 0 < b
    ensures |Batches(items)| == |Batches(items[BATCH_ITEMS..])| + 1
    ensures b < |Batches(items)| ==> Batches(items)[b] == Batches(items[BATCH_ITEMS..])[b - 1]
  {
    hide Batches;
    BatchesUnfold(items);
  }

  lemma {:induction false} SliceOfRest(items: seq<Item>, n: nat, lo: nat, hi: nat)
    requires n <= lo <= hi <= |items|
    ensures items[n..][lo - n..hi - n] == items[lo..hi]
  {
  }

  lemma {:induction false} BatchesUnfold(items: seq<Item>)
    requires |items| > BATCH_ITEMS
    ensures Batches(items) == [items[..BATCH_ITEMS]] + Batches(items[BATCH_ITEMS..])
  {
  }

  // ---------- The table and its batch call ----------

  datatype Response = Answered(unprocessed: map<string, Item>) | Raised

  predicate Part(part: map<string, Item>, whole: map<string, Item>) {
    forall k :: k in part ==> k in whole && part[k] == whole[k]
  }

  class Table {
    var items: map<string, Item>
    var requests: seq<map<string, Item>>
    ghost var responses: seq<Response>   // the answer to each request

    ghost predicate Valid() reads this { |requests| == |responses| }

    constructor ()
      ensures Valid() && items == map[] && requests == []
    {
      items, requests, responses := map[], [], [];
    }

    // One remote call. The service stores any part of the request and hands the
    // rest back; a call that raises may also have stored any part.
    method BatchWrite(pending: map<string, Item>) returns (response: Response)
      requires Valid()
      modifies this
      ensures Valid()
      ensures requests == old(requests) + [pending] && responses == old(responses) + [response]
      ensures response.Answered? ==>
                && Part(response.unprocessed, pending)
                && items == old(items) + (pending - response.unprocessed.Keys)
      ensures response.Raised? ==> StoredPart(old(items), pending, items)
    {
      requests := requests + [pending];
      var refusal: set<string> := *;
      var unprocessed := map k | k in pending && k in refusal :: pending[k];
      var raised: bool := *;
      ghost var before := items;
      items := items + (pending - unprocessed.Keys);
      StoredAllBut(before, pending, unprocessed);
      response := if raised then Raised else Answered(unprocessed);
      responses := responses + [response];
    }
  }

  // `after` is `before` with some part of `whole` stored over it.
  predicate StoredPart(before: map<string, Item>, whole: map<string, Item>, after: map<string, Item>) {
    && (forall k :: k in before ==> k in after)
    && (forall k :: k in after ==>
          (k in before && after[k] == before[k]) || (k in whole && after[k] == whole[k]))
  }

  lemma {:induction false} StoredAllBut(before: map<string, Item>, whole: map<string, Item>, rest: map<string, Item>)
    ensures StoredPart(before, whole, before + (whole - rest.Keys))
  {
  }

  lemma {:induction false} StoredMore(before: map<string, Item>, whole: map<string, Item>, mid: map<string, Item>,
                   part: map<string, Item>, after: map<string, Item>)
    requires StoredPart(before, whole, mid) && StoredPart(mid, part, after) && Part(part, whole)
    ensures StoredPart(before, whole, after)
  {
  }

  datatype Outcome = Uploaded | Refused | RetryLimit | CallRaised

  // Every request from `first` on is a nonempty part of `whole`.
  predicate RequestsWithin(requests: seq<map<string, Item>>, first: nat, whole: map<string, Item>) {
    forall i :: first <= i < |requests| ==> requests[i] != map[] && Part(requests[i], whole)
  }

  // What is stored and what is pending always make up the group.
  lemma {:induction false} StoreAndHandBack(before: map<string, Item>, group: map<string, Item>,
                         pending: map<string, Item>, unprocessed: map<string, Item>)
    requires Part(pending, group) && Part(unprocessed, pending)
    ensures before + (group - pending.Keys) + (pending - unprocessed.Keys) == before + (group - unprocessed.Keys)
    ensures Part(unprocessed, group)
  {
  }

  // ---------- What is asked and what is answered ----------

  // The calls for one group: the group first, and then again and again what the answer
  // before has handed back.
  predicate Attempts(group: map<string, Item>, requests: seq<map<string, Item>>, responses: seq<Response>) {
    && 1 <= |requests| == |responses| <= 12
    && requests[0] == group
    && forall i :: 0 <= i < |requests| - 1 ==>
         responses[i].Answered? && responses[i].unprocessed != map[] && requests[i + 1] == responses[i].unprocessed
  }

  // How the calls for one group have ended: by an error, with nothing handed back, or with
  // something handed back twelve times.
  predicate EndsAs(outcome: Outcome, responses: seq<Response>)
    requires responses != []
  {
    match responses[|responses| - 1]
    case Raised => outcome.CallRaised?
    case Answered(unprocessed) =>
      if unprocessed == map[] then outcome.Uploaded? else outcome.RetryLimit? && |responses| == 12
  }

  // The attempts for one batch.
  method UploadGroup(table: Table, group: map<string, Item>) returns (outcome: Outcome)
    requires table.Valid() && group != map[]
    modifies table
    ensures table.Valid()
    ensures old(table.requests) <= table.requests && old(table.responses) <= table.responses
    ensures Attempts(group, table.requests[|old(table.requests)|..], table.responses[|old(table.responses)|..])
    ensures EndsAs(outcome, table.responses[|old(table.responses)|..]) && !outcome.Refused?
    ensures RequestsWithin(table.requests, |old(table.requests)|, group)
    ensures outcome.Uploaded? ==> table.items == old(table.items) + group
    ensures StoredPart(old(table.items), group, table.items)
  {
    hide Part, StoredPart, Attempts, EndsAs;
    var pending := group;
    var attempt := 0;
    ghost var before, first := table.items, |table.requests|;
    PartOfItself(group);
    assert before + (group - group.Keys) == before;
    while attempt < ATTEMPTS && pending != map[]
      invariant 0 <= attempt <= ATTEMPTS
      invariant table.Valid() && Part(pending, group)
      invariant table.items == before + (group - pending.Keys)
      invariant old(table.requests) <= table.requests && |table.requests| == first + attempt
      invariant old(table.responses) <= table.responses
      invariant RequestsWithin(table.requests, first, group)
      invariant Pending(group, table.requests[first..], table.responses[first..], pending)
    {
      ghost var mid := table.items;
      ghost var requests, responses := table.requests[first..], table.responses[first..];
      StoredAllBut(before, group, pending);
      var response := table.BatchWrite(pending);
      OneMoreAttempt(group, requests, responses, pending, response);
      assert table.requests[first..] == requests + [pending] && table.responses[first..] == responses + [response];
      if response.Raised? {
        StoredMore(before, group, mid, pending, table.items);
        return CallRaised;
      }
      StoreAndHandBack(before, group, pending, response.unprocessed);
      pending := response.unprocessed;
      attempt := attempt + 1;
    }
    StoredAllBut(before, group, pending);
    PendingEnds(group, table.requests[first..], table.responses[first..], pending);
    if pending != map[] {
      return RetryLimit;
    }
    assert group - pending.Keys == group;
    return Uploaded;
  }

  // Before each attempt: what is pending is the group or what was handed back last.
  predicate Pending(
    group: map<string, Item>, requests: seq<map<string, Item>>, responses: seq<Response>, pending: map<string, Item>)
  {
    if requests == [] then responses == [] && pending == group
    else Attempts(group, requests, responses) && responses[|responses| - 1] == Answered(pending)
  }

  lemma {:induction false} OneMoreAttempt(
    group: map<string, Item>, requests: seq<map<string, Item>>, responses: seq<Response>,
    pending: map<string, Item>, response: Response)
    requires Pending(group, requests, responses, pending) && pending != map[] && |requests| < 12
    ensures Attempts(group, requests + [pending], responses + [response])
    ensures response.Answered? ==> Pending(group, requests + [pending], responses + [response], response.unprocessed)
    ensures response.Raised? ==> EndsAs(CallRaised, responses + [response])
  {
  }

  lemma {:induction false} PendingEnds(
    group: map<string, Item>, requests: seq<map<string, Item>>, responses: seq<Response>, pending: map<string, Item>)
    requires Pending(group, requests, responses, pending) && requests != []
    ensures Attempts(group, requests, responses)
    ensures pending == map[] ==> EndsAs(Uploaded, responses)
    ensures pending != map[] && |requests| == 12 ==> EndsAs(RetryLimit, responses)
  {
  }

  // ---------- One group after another ----------

  // The calls by which all groups were uploaded, in order.
  ghost predicate AllUploaded(
    groups: seq<map<string, Item>>, requests: seq<map<string, Item>>, responses: seq<Response>)
    decreases |groups|, 0
  {
    if groups == [] then requests == [] && responses == []
    else exists n: nat :: LastFrom(groups, requests, responses, n)
  }

  ghost predicate LastFrom(
    groups: seq<map<string, Item>>, requests: seq<map<string, Item>>, responses: seq<Response>, n: nat)
    requires groups != []
    decreases |groups| - 1, 2
  {
    GroupFrom(groups, |groups| - 1, requests, responses, n, Uploaded)
  }

  // From the n-th call on, after the groups before it were uploaded, the calls for one
  // group and how they ended.
  ghost predicate GroupFrom(
    groups: seq<map<string, Item>>, b: nat, requests: seq<map<string, Item>>, responses: seq<Response>, n: nat,
    outcome: Outcome)
    requires b < |groups|
    decreases b, 1
  {
    && n < |requests| == |responses|
    && AllUploaded(groups[..b], requests[..n], responses[..n])
    && Attempts(groups[b], requests[n..], responses[n..])
    && EndsAs(outcome, responses[n..])
  }

  // The calls of a whole upload: every group uploaded, or the calls up to the first group
  // that was not.
  ghost predicate UploadCalls(
    groups: seq<map<string, Item>>, requests: seq<map<string, Item>>, responses: seq<Response>, outcome: Outcome)
  {
    if outcome.Uploaded? then AllUploaded(groups, requests, responses)
    else exists b: nat, n: nat :: b < |groups| && GroupFrom(groups, b, requests, responses, n, outcome)
  }

  predicate NothingHandedBack(responses: seq<Response>) {
    forall i :: 0 <= i < |responses| ==> responses[i] == Answered(map[])
  }

  lemma {:induction false} OneCallEach(groups: seq<map<string, Item>>, requests: seq<map<string, Item>>, responses: seq<Response>)
    requires AllUploaded(groups, requests, responses) && NothingHandedBack(responses)
    ensures requests == groups
    decreases |groups|
  {
    hide EndsAs;
    if groups != [] {
      var n: nat :| LastFrom(groups, requests, responses, n);
      assert GroupFrom(groups, |groups| - 1, requests, responses, n, Uploaded);
      OneCallEach(groups[..|groups| - 1], requests[..n], responses[..n]);
      OneCall(groups[|groups| - 1], requests[n..], responses[n..]);
      assert requests == requests[..n] + requests[n..];
      assert groups == groups[..|groups| - 1] + [groups[|groups| - 1]];
    }
  }

  lemma {:induction false} OneCall(group: map<string, Item>, requests: seq<map<string, Item>>, responses: seq<Response>)
    requires Attempts(group, requests, responses) && NothingHandedBack(responses)
    ensures requests == [group]
  {
    if |requests| > 1 {
      Retried(group, requests, responses);
    }
  }

  lemma {:induction false} Retried(group: map<string, Item>, requests: seq<map<string, Item>>, responses: seq<Response>)
    requires Attempts(group, requests, responses) && |requests| > 1
    ensures !NothingHandedBack(responses)
  {
    assert responses[0] != Answered(map[]);
  }

  lemma {:induction false} NotTakenWhole(
    groups: seq<map<string, Item>>, requests: seq<map<string, Item>>, responses: seq<Response>, outcome: Outcome)
    requires UploadCalls(groups, requests, responses, outcome) && !outcome.Uploaded?
    ensures !NothingHandedBack(responses)
  {
    hide Attempts, AllUploaded;
    var b: nat, n: nat :| b < |groups| && GroupFrom(groups, b, requests, responses, n, outcome);
    var last := responses[n..];
    assert last[|last| - 1] == responses[|responses| - 1];
    assert responses[|responses| - 1] != Answered(map[]);
  }

  // If no answer hands anything back, the upload succeeds with one request for each group.
  lemma {:induction false} TakenWholeSucceeds(
    groups: seq<map<string, Item>>, requests: seq<map<string, Item>>, responses: seq<Response>, outcome: Outcome)
    requires UploadCalls(groups, requests, responses, outcome) && NothingHandedBack(responses)
    ensures outcome.Uploaded? && requests == groups
  {
    if outcome.Uploaded? {
      OneCallEach(groups, requests, responses);
    } else {
      hide UploadCalls, NothingHandedBack;
      NotTakenWhole(groups, requests, responses, outcome);
    }
  }

  // The last answer tells how an upload ended, and giving up takes twelve in a row that
  // hand something back.
  predicate DecidedBy(outcome: Outcome, responses: seq<Response>) {
    && responses != []
    && (outcome.Uploaded? <==> responses[|responses| - 1] == Answered(map[]))
    && (outcome.CallRaised? <==> responses[|responses| - 1].Raised?)
    && (outcome.RetryLimit? <==>
          responses[|responses| - 1].Answered? && responses[|responses| - 1].unprocessed != map[])
    && (outcome.RetryLimit? ==>
          |responses| >= 12 && forall i :: |responses| - 12 <= i < |responses| ==>
            responses[i].Answered? && responses[i].unprocessed != map[])
  }

  lemma {:induction false} LastAnswerDecides(
    groups: seq<map<string, Item>>, requests: seq<map<string, Item>>, responses: seq<Response>, outcome: Outcome)
    requires UploadCalls(groups, requests, responses, outcome) && groups != []
    ensures DecidedBy(outcome, responses)
  {
    hide AllUploaded;
    var b, n := SomeGroup(groups, requests, responses, outcome);
    var last := responses[n..];
    assert last[|last| - 1] == responses[|responses| - 1];
    if outcome.RetryLimit? {
      forall i | |responses| - 12 <= i < |responses| ensures responses[i].Answered? && responses[i].unprocessed != map[] {
        assert responses[i] == last[i - n];
      }
    }
  }

  lemma {:induction false} SomeGroup(
    groups: seq<map<string, Item>>, requests: seq<map<string, Item>>, responses: seq<Response>, outcome: Outcome)
    returns (b: nat, n: nat)
    requires UploadCalls(groups, requests, responses, outcome) && groups != []
    ensures b < |groups| && GroupFrom(groups, b, requests, responses, n, outcome)
  {
    hide GroupFrom;
    if outcome.Uploaded? {
      b := |groups| - 1;
      assert AllUploaded(groups, requests, responses);
      n :| LastFrom(groups, requests, responses, n);
    } else {
      b, n :| b < |groups| && GroupFrom(groups, b, requests, responses, n, outcome);
    }
  }

  lemma {:induction false} PartOfItself(m: map<string, Item>)
    ensures Part(m, m)
  {
  }

  lemma {:induction false} StoredThenMore(before: map<string, Item>, done: map<string, Item>, group: map<string, Item>,
                       whole: map<string, Item>, after: map<string, Item>)
    requires StoredPart(before + done, group, after)
    requires Part(done, whole) && Part(group, whole)
    ensures StoredPart(before, whole, after)
  {
  }

  predicate DistinctKeys(items: seq<Item>) {
    forall i, j :: 0 <= i < j < |items| ==> items[i].key != items[j].key
  }

  // With distinct keys the map holds exactly the items.
  lemma {:induction false} AsMapReads(items: seq<Item>)
    requires DistinctKeys(items)
    ensures forall i :: 0 <= i < |items| ==> items[i].key in AsMap(items) && AsMap(items)[items[i].key] == items[i]
    ensures forall k :: k in AsMap(items) ==> exists i :: 0 <= i < |items| && items[i].key == k
  {
    if items != [] {
      var front, last := items[..|items| - 1], items[|items| - 1];
      AsMapReads(front);
      forall i | 0 <= i < |items| ensures items[i].key in AsMap(items) && AsMap(items)[items[i].key] == items[i] {
        if i < |front| {
          assert items[i] == front[i];
        }
      }
      forall k | k in AsMap(items) ensures exists i :: 0 <= i < |items| && items[i].key == k {
        if k == last.key {
          assert items[|items| - 1].key == k;
        } else {
          assert k in AsMap(front);
          var i :| 0 <= i < |front| && front[i].key == k;
          assert items[i].key == k;
        }
      }
    }
  }

  // Part of a list with distinct keys is part of its map.
  lemma {:induction false} SlicePart(items: seq<Item>, lo: nat, hi: nat)
    requires DistinctKeys(items) && lo <= hi <= |items|
    ensures Part(AsMap(items[lo..hi]), AsMap(items))
  {
    var slice := items[lo..hi];
    AsMapReads(items);
    assert forall i :: 0 <= i < |slice| ==> slice[i] == items[lo + i];
    AsMapReads(slice);
    forall k | k in AsMap(slice) ensures k in AsMap(items) && AsMap(slice)[k] == AsMap(items)[k] {
      var i :| 0 <= i < |slice| && slice[i].key == k;
      assert items[lo + i].key == k;
    }
  }

  // Each request from `first` on is a nonempty part of one batch.
  ghost predicate RequestsInBatches(requests: seq<map<string, Item>>, first: nat, items: seq<Item>) {
    forall i :: first <= i < |requests| ==> requests[i] != map[] && InSomeBatch(requests[i], items)
  }

  ghost predicate InSomeBatch(request: map<string, Item>, items: seq<Item>) {
    exists b :: 0 <= b < |Batches(items)| && Part(request, AsMap(Batches(items)[b]))
  }

  predicate DistinctNames(files: seq<File>) {
    forall i, j :: 0 <= i < j < |files| ==> files[i].name != files[j].name
  }

  // The check of every item before any data is written.
  method Preflight(files: seq<File>) returns (ok: bool)
    ensures ok == AllValid(files)
  {
    for i := 0 to |files|
      invariant forall j :: 0 <= j < i ==> ValidFile(files[j])
    {
      if BlobItem(files[i].name, files[i].content).None? {
        assert !ValidFile(files[i]);
        return false;
      }
    }
    return true;
  }

  // The groups of an upload, as maps of put requests.
  function Groups(items: seq<Item>): (groups: seq<map<string, Item>>)
    ensures |groups| == |Batches(items)|
    ensures forall b :: 0 <= b < |groups| ==> groups[b] == AsMap(Batches(items)[b])
  {
    seq(|Batches(items)|, b requires 0 <= b < |Batches(items)| => AsMap(Batches(items)[b]))
  }

  // The upload of a directory, given as its sorted files.
  method Upload(table: Table, files: seq<File>) returns (outcome: Outcome)
    requires table.Valid() && DistinctNames(files)
    modifies table
    ensures table.Valid()
    ensures old(table.requests) <= table.requests && old(table.responses) <= table.responses
    ensures outcome.Refused? <==> files == [] || TotalBytes(files) > 6442450944 || !AllValid(files)
    ensures outcome.Refused? ==> table.items == old(table.items) && table.requests == old(table.requests)
    ensures outcome.Uploaded? ==> table.items == old(table.items) + AsMap(ItemsOf(files))
    ensures !outcome.Refused? ==>
              && StoredPart(old(table.items), AsMap(ItemsOf(files)), table.items)
              && RequestsInBatches(table.requests, |old(table.requests)|, ItemsOf(files))
              && UploadCalls(Groups(ItemsOf(files)), table.requests[|old(table.requests)|..],
                             table.responses[|old(table.responses)|..], outcome)
              && DecidedBy(outcome, table.responses[|old(table.responses)|..])
              && (NothingHandedBack(table.responses[|old(table.responses)|..]) ==>
                    outcome.Uploaded? && table.requests[|old(table.requests)|..] == Groups(ItemsOf(files)))
  {
    if files == [] || TotalBytes(files) > MAXIMUM_TARGET_BYTES {
      return Refused;
    }
    var ok := Preflight(files);
    if !ok {
      return Refused;
    }
    outcome := UploadBatches(table, ItemsOf(files));
    LastAnswerDecides(Groups(ItemsOf(files)), table.requests[|old(table.requests)|..],
                      table.responses[|old(table.responses)|..], outcome);
  }

  method UploadBatches(table: Table, items: seq<Item>) returns (outcome: Outcome)
    requires table.Valid() && DistinctKeys(items)
    modifies table
    ensures table.Valid()
    ensures old(table.requests) <= table.requests && old(table.responses) <= table.responses
    ensures !outcome.Refused?
    ensures outcome.Uploaded? ==> table.items == old(table.items) + AsMap(items)
    ensures StoredPart(old(table.items), AsMap(items), table.items)
    ensures RequestsInBatches(table.requests, |old(table.requests)|, items)
    ensures UploadCalls(Groups(items), table.requests[|old(table.requests)|..],
                        table.responses[|old(table.responses)|..], outcome)
    ensures NothingHandedBack(table.responses[|old(table.responses)|..]) ==>
              outcome.Uploaded? && table.requests[|old(table.requests)|..] == Groups(items)
  {
    hide Part, StoredPart, DistinctKeys, Batches, AsMap, RequestsWithin, RequestsInBatches, AllUploaded, UploadCalls,
      GroupFrom, Attempts, EndsAs, NothingHandedBack, Groups;
    ghost var before, first, groups := table.items, |table.requests|, Groups(items);
    ghost var batch := 0;
    var offset := 0;
    UploadStarts(before, table.requests, items);
    NoneUploaded(groups);
    assert table.requests[first..] == [] && table.responses[first..] == [];
    while offset < |items|
      invariant table.Valid() && 0 <= batch <= |groups|
      invariant offset == Min(batch * BATCH_ITEMS, |items|)
      invariant table.items == before + AsMap(items[..offset])
      invariant old(table.requests) <= table.requests && old(table.responses) <= table.responses
      invariant RequestsInBatches(table.requests, first, items)
      invariant AllUploaded(groups[..batch], table.requests[first..], table.responses[first..])
    {
      var stop := Min(offset + BATCH_ITEMS, |items|);
      ghost var known, answered := table.requests, table.responses;
      BatchIsPart(items, batch);
      outcome := UploadGroup(table, AsMap(items[offset..stop]));
      RequestsStay(known, table.requests, first, batch, items);
      OneMoreGroup(groups, batch, known[first..], answered[first..],
                   table.requests[|known|..], table.responses[|answered|..], outcome);
      assert table.requests[first..] == known[first..] + table.requests[|known|..];
      assert table.responses[first..] == answered[first..] + table.responses[|answered|..];
      if !outcome.Uploaded? {
        SlicePart(items, 0, offset);
        assert items[0..offset] == items[..offset];
        StoredThenMore(before, AsMap(items[..offset]), AsMap(items[offset..stop]), AsMap(items), table.items);
        WhenTakenWhole(groups, table.requests[first..], table.responses[first..], outcome);
        return;
      }
      AfterGroup(before, items, offset, stop);
      offset := stop;
      batch := batch + 1;
    }
    assert items[..offset] == items;
    StoredWhole(before, AsMap(items));
    AllGroups(items, batch);
    assert groups[..batch] == groups;
    IsWholeUpload(groups, table.requests[first..], table.responses[first..]);
    WhenTakenWhole(groups, table.requests[first..], table.responses[first..], Uploaded);
    return Uploaded;
  }

  lemma {:induction false} NoneUploaded(groups: seq<map<string, Item>>)
    ensures AllUploaded(groups[..0], [], [])
  {
  }

  lemma {:induction false} IsWholeUpload(
    groups: seq<map<string, Item>>, requests: seq<map<string, Item>>, responses: seq<Response>)
    requires AllUploaded(groups, requests, responses)
    ensures UploadCalls(groups, requests, responses, Uploaded)
  {
  }

  lemma {:induction false} WhenTakenWhole(
    groups: seq<map<string, Item>>, requests: seq<map<string, Item>>, responses: seq<Response>, outcome: Outcome)
    requires UploadCalls(groups, requests, responses, outcome)
    ensures NothingHandedBack(responses) ==> outcome.Uploaded? && requests == groups
  {
    hide UploadCalls;
    if NothingHandedBack(responses) {
      TakenWholeSucceeds(groups, requests, responses, outcome);
    }
  }

  // The number of batches after which no item is left.
  lemma {:induction false} AllGroups(items: seq<Item>, b: nat)
    requires b <= |Batches(items)| && b * BATCH_ITEMS >= |items|
    ensures b == |Batches(items)|
    decreases b
  {
    if |items| > BATCH_ITEMS {
      hide Batches;
      BatchesUnfold(items);
      AllGroups(items[BATCH_ITEMS..], b - 1);
    }
  }

  lemma {:induction false} OneMoreGroup(
    groups: seq<map<string, Item>>, b: nat, requests: seq<map<string, Item>>, responses: seq<Response>,
    more: seq<map<string, Item>>, answers: seq<Response>, outcome: Outcome)
    requires b < |groups| && |requests| == |responses|
    requires AllUploaded(groups[..b], requests, responses)
    requires Attempts(groups[b], more, answers) && EndsAs(outcome, answers)
    ensures GroupFrom(groups, b, requests + more, responses + answers, |requests|, outcome)
    ensures outcome.Uploaded? ==> AllUploaded(groups[..b + 1], requests + more, responses + answers)
    ensures !outcome.Uploaded? ==> UploadCalls(groups, requests + more, responses + answers, outcome)
  {
    hide Attempts, EndsAs, AllUploaded;
    var n, all, answered := |requests|, requests + more, responses + answers;
    NotEmpty(groups[b], more, answers);
    assert all[..n] == requests && all[n..] == more && answered[..n] == responses && answered[n..] == answers;
    assert n < |all| == |answered|;
    assert AllUploaded(groups[..b], all[..n], answered[..n]);
    assert Attempts(groups[b], all[n..], answered[n..]);
    assert EndsAs(outcome, answered[n..]);
    if outcome.Uploaded? {
      assert groups[..b + 1][..b] == groups[..b];
      assert GroupFrom(groups[..b + 1], b, all, answered, n, Uploaded);
      assert LastFrom(groups[..b + 1], all, answered, n);
      LastGroup(groups[..b + 1], all, answered, n);
    }
  }

  lemma {:induction false} NotEmpty(group: map<string, Item>, requests: seq<map<string, Item>>, responses: seq<Response>)
    requires Attempts(group, requests, responses)
    ensures requests != [] && |requests| == |responses|
  {
  }

  lemma {:induction false} LastGroup(
    groups: seq<map<string, Item>>, requests: seq<map<string, Item>>, responses: seq<Response>, n: nat)
    requires groups != [] && GroupFrom(groups, |groups| - 1, requests, responses, n, Uploaded)
    ensures AllUploaded(groups, requests, responses)
  {
    assert LastFrom(groups, requests, responses, n);
  }

  lemma {:induction false} UploadStarts(before: map<string, Item>, requests: seq<map<string, Item>>, items: seq<Item>)
    ensures before == before + AsMap(items[..0])
    ensures RequestsInBatches(requests, |requests|, items)
  {
    assert AsMap(items[..0]) == map[];
  }

  lemma {:induction false} AfterGroup(before: map<string, Item>, items: seq<Item>, offset: nat, stop: nat)
    requires offset <= stop <= |items|
    ensures before + AsMap(items[..offset]) + AsMap(items[offset..stop]) == before + AsMap(items[..stop])
  {
    hide AsMap;
    AsMapAppend(items[..offset], items[offset..stop]);
    assert items[..stop] == items[..offset] + items[offset..stop];
  }

  lemma {:induction false} BatchIsPart(items: seq<Item>, b: nat)
    requires DistinctKeys(items) && b * BATCH_ITEMS < |items|
    ensures var lo, hi := b * BATCH_ITEMS, Min(b * BATCH_ITEMS + BATCH_ITEMS, |items|);
            && AsMap(items[lo..hi]) != map[]
            && Part(AsMap(items[lo..hi]), AsMap(items))
            && b < |Batches(items)| && Batches(items)[b] == items[lo..hi]
  {
    hide Part, AsMap, DistinctKeys, Batches;
    BatchAt(items, b);
    var lo, hi := b * BATCH_ITEMS, Min(b * BATCH_ITEMS + BATCH_ITEMS, |items|);
    AsMapSize(items[lo..hi]);
    SlicePart(items, lo, hi);
  }

  lemma {:induction false} StoredWhole(before: map<string, Item>, whole: map<string, Item>)
    ensures StoredPart(before, whole, before + whole)
  {
  }

  lemma {:induction false} RequestsStay(known: seq<map<string, Item>>, requests: seq<map<string, Item>>,
                     first: nat, b: nat, items: seq<Item>)
    requires first <= |known| && known <= requests && b < |Batches(items)|
    requires RequestsInBatches(known, first, items)
    requires RequestsWithin(requests, |known|, AsMap(Batches(items)[b]))
    ensures RequestsInBatches(requests, first, items)
  {
    hide Part, Batches, AsMap;
    forall i | first <= i < |requests| ensures requests[i] != map[] && InSomeBatch(requests[i], items) {
      if i < |known| {
        assert requests[i] == known[i];
      }
    }
  }
}
