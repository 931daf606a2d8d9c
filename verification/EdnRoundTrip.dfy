// Reading back what the EDN printer wrote.
module EdnRoundTrip {
  import opened Wrappers
  import opened Edn
  import Decimal

  // The tree that survives printing: the printer receives every string as a C
  // string, so it keeps what comes before the first NUL.
  function Truncate(j: Json): Json
    decreases j, 1
  {
    match j
    case String(s) => String(CString(s))
    case Array(items) => Array(TruncateItems(items))
    case Object(entries) => Object(TruncateEntries(entries))
    case _ => j
  }

  function TruncateItems(items: seq<Json>): (r: seq<Json>)
    ensures |r| == |items|
    decreases items, 0
  {
    if items == [] then [] else [Truncate(items[0])] + TruncateItems(items[1..])
  }

  function TruncateEntries(entries: seq<Entry>): (r: seq<Entry>)
    ensures |r| == |entries|
    decreases entries, 0
  {
    if entries == [] then []
    else [Entry(CString(entries[0].key), Truncate(entries[0].value))] + TruncateEntries(entries[1..])
  }

  predicate NoNul(j: Json)
    decreases j
  {
    match j
    case String(s) => '\0' !in s
    case Array(items) => forall i :: 0 <= i < |items| ==> NoNul(items[i])
    case Object(entries) =>
      forall i :: 0 <= i < |entries| ==> '\0' !in entries[i].key && NoNul(entries[i].value)
    case _ => true
  }

  // Every double carries the text of a JSON number that is not an integer.
  predicate WellFormed(j: Json)
    decreases j
  {
    match j
    case Double(text) => IsDoubleText(text)
    case Array(items) => forall i :: 0 <= i < |items| ==> WellFormed(items[i])
    case Object(entries) => forall i :: 0 <= i < |entries| ==> WellFormed(entries[i].value)
    case _ => true
  }

  lemma {:induction false} CStringIdentity(s: string)
    ensures CString(s) == s <==> '\0' !in s
  {
  }

  lemma {:induction false} TruncateIsIdentity(j: Json)
    ensures Truncate(j) == j <==> NoNul(j)
    decreases j, 1
  {
    match j
    case String(s) => CStringIdentity(s);
    case Array(items) => TruncateItemsIdentity(items);
    case Object(entries) => TruncateEntriesIdentity(entries);
    case _ =>
  }

  lemma {:induction false} TruncateItemsIdentity(items: seq<Json>)
    ensures TruncateItems(items) == items <==> forall i :: 0 <= i < |items| ==> NoNul(items[i])
    decreases items, 0
  {
    if items != [] {
      TruncateIsIdentity(items[0]);
      TruncateItemsIdentity(items[1..]);
      assert items == [items[0]] + items[1..];
      assert forall i :: 0 < i < |items| ==> items[i] == items[1..][i - 1];
    }
  }

  lemma {:induction false} TruncateEntriesIdentity(entries: seq<Entry>)
    ensures TruncateEntries(entries) == entries
            <==> forall i :: 0 <= i < |entries| ==> '\0' !in entries[i].key && NoNul(entries[i].value)
    decreases entries, 0
  {
    if entries != [] {
      CStringIdentity(entries[0].key);
      TruncateIsIdentity(entries[0].value);
      TruncateEntriesIdentity(entries[1..]);
      assert entries == [entries[0]] + entries[1..];
      assert forall i :: 0 < i < |entries| ==> entries[i] == entries[1..][i - 1];
    }
  }

  // ---------- Strings ----------

  lemma {:induction false} ReadEscapedChar(c: char, rest: string)
    ensures EscapeChar(c)[0] != '"'
    ensures ReadChar(EscapeChar(c) + rest) == Some((c, rest))
  {
    var e := EscapeChar(c);
    assert (e + rest)[|e|..] == rest;
    if c as int < 0x20 && |e| == 6 {
      assert HexValue(e[4]) * 16 + HexValue(e[5]) == c as int;
    }
  }

  lemma {:induction false} ReadEscaped(s: string, rest: string)
    ensures ReadChars(Escape(s) + ['"'] + rest) == Some((s, rest))
  {
    hide EscapeChar, ReadChar;
    if s == "" {
      assert Escape(s) + ['"'] + rest == ['"'] + rest;
    } else {
      var after := Escape(s[1..]) + ['"'] + rest;
      ReadEscapedChar(s[0], after);
      ReadEscaped(s[1..], rest);
      assert Escape(s) + ['"'] + rest == EscapeChar(s[0]) + after;
      assert [s[0]] + s[1..] == s;
    }
  }

  lemma {:induction false} ReadString(s: string, rest: string)
    ensures ReadValue(EdnString(s) + rest) == Some((String(s), rest))
  {
    hide Escape, ReadChars, ReadItems, ReadEntries, ReadToken, TokenLength;
    ReadEscaped(s, rest);
    assert EdnString(s) + rest == ['"'] + (Escape(s) + ['"'] + rest);
  }

  // Distinct strings print differently, and no printed string is a prefix of another.
  lemma {:induction false} EdnStringIsInjective(s: string, t: string, rest: string, rest': string)
    requires EdnString(s) + rest == EdnString(t) + rest'
    ensures s == t && rest == rest'
  {
    ReadString(s, rest);
    ReadString(t, rest');
  }

  // ---------- Tokens ----------

  predicate IsTokenText(t: string) { t != "" && forall i :: 0 <= i < |t| ==> !IsDelimiter(t[i]) }

  lemma {:induction false} TokenPrefix(t: string, rest: string)
    requires forall i :: 0 <= i < |t| ==> !IsDelimiter(t[i])
    requires Delimited(rest)
    ensures TokenLength(t + rest) == |t|
  {
    if t == "" {
      assert t + rest == rest;
    } else {
      TokenPrefix(t[1..], rest);
      assert (t + rest)[1..] == t[1..] + rest;
    }
  }

  lemma {:induction false} ReadTokenText(t: string, rest: string)
    requires IsTokenText(t) && Delimited(rest) && ReadToken(t).Some?
    ensures ReadValue(t + rest) == Some((ReadToken(t).value, rest))
  {
    TokenPrefix(t, rest);
    var s := t + rest;
    assert s[..|t|] == t && s[|t|..] == rest && s[0] == t[0];
  }

  lemma {:induction false} DigitsAreTokenText(t: string)
    requires Decimal.Canonical(t)
    ensures IsTokenText(t) && IsTokenText(['-'] + t)
    ensures t != "nil" && t != "true" && t != "false"
  {
    assert Decimal.IsDigit(t[0]);
  }

  lemma {:induction false} ReadPrintedInt(n: Int64, rest: string)
    requires Delimited(rest)
    ensures IsTokenText(PrintInt(n))
    ensures ReadValue(PrintInt(n) + rest) == Some((Int(n), rest))
  {
    var m: nat := if n < 0 then -(n as int) else n;
    var digits := Decimal.Print(m);
    Decimal.PrintIsCanonical(m);
    DigitsAreTokenText(digits);
    if n < 0 {
      var t := ['-'] + digits;
      assert t[1..] == digits && !Decimal.IsDigit(t[0]);
      assert ReadToken(t) == Some(Int(n));
    } else {
      assert ReadToken(digits) == Some(Int(n));
    }
    ReadTokenText(PrintInt(n), rest);
  }

  lemma {:induction false} DoubleIsTokenText(text: string)
    requires IsDoubleText(text)
    ensures IsTokenText(text) && '\0' !in text
  {
    forall i | 0 <= i < |text| ensures !IsDelimiter(text[i]) && text[i] != '\0' {
      assert IsNumberChar(text[i]);
    }
  }

  lemma {:induction false} ReadPrintedDouble(text: string, rest: string)
    requires IsDoubleText(text) && Delimited(rest)
    ensures CString(text) == text && IsTokenText(text)
    ensures ReadValue(text + rest) == Some((Double(text), rest))
  {
    DoubleIsTokenText(text);
    hide ReadValue, ReadToken, IsDoubleText, CString, IsTokenText;
    CStringIdentity(text);
    NotAnInteger(text);
    ReadTokenText(text, rest);
  }

  lemma {:induction false} NotAnInteger(text: string)
    requires IsDoubleText(text)
    ensures ReadToken(text) == Some(Double(text))
  {
    assert IsNumberChar(text[0]);
    var k :| 0 <= k < |text| && (text[k] == '.' || text[k] == 'e' || text[k] == 'E');
    assert !Decimal.IsDigit(text[k]);
    if text[0] == '-' {
      assert k > 0 && !Decimal.IsDigit(text[1..][k - 1]);
    }
  }

  // ---------- Trees ----------

  lemma {:induction false} PrintStart(j: Json)
    requires WellFormed(j)
    ensures Print(j) != "" && !IsSpace(Print(j)[0]) && Print(j)[0] != ']' && Print(j)[0] != '}'
  {
    match j
    case Int(n) => ReadPrintedInt(n, "");
    case Double(text) => ReadPrintedDouble(text, "");
    case _ =>
  }

  // The text after an opening bracket decides what is read.
  lemma {:induction false} ReadOpened(inner: string)
    ensures ReadItems(inner).Some?
            ==> ReadValue(['['] + inner) == Some((Array(ReadItems(inner).value.0), ReadItems(inner).value.1))
    ensures ReadEntries(inner).Some?
            ==> ReadValue(['{'] + inner) == Some((Object(ReadEntries(inner).value.0), ReadEntries(inner).value.1))
  {
    assert (['['] + inner)[1..] == inner && (['{'] + inner)[1..] == inner;
  }

  lemma {:induction false} ReadSpaced(s: string)
    ensures ReadValue([' '] + s) == ReadValue(s)
    ensures ReadItems([' '] + s) == ReadItems(s)
    ensures ReadEntries([' '] + s) == ReadEntries(s)
  {
    assert ([' '] + s)[1..] == s;
  }

  lemma {:induction false} ReadClosed(rest: string)
    ensures ReadItems([']'] + rest) == Some(([], rest))
    ensures ReadEntries(['}'] + rest) == Some(([], rest))
  {
    assert ([']'] + rest)[1..] == rest && (['}'] + rest)[1..] == rest;
  }

  lemma {:induction false} ReadItemsStep(j: Json, more: string)
    requires WellFormed(j)
    requires ReadValue(Print(j) + more) == Some((Truncate(j), more))
    requires ReadItems(more).Some?
    ensures ReadItems(Print(j) + more)
            == Some(([Truncate(j)] + ReadItems(more).value.0, ReadItems(more).value.1))
  {
    PrintStart(j);
    assert (Print(j) + more)[0] == Print(j)[0];
  }

  lemma {:induction false} ReadEntriesAt(s: string, key: string, mid: string, value: Json, more: string)
    requires s != "" && !IsSpace(s[0]) && s[0] != '}'
    requires ReadValue(s) == Some((String(key), mid))
    requires ReadValue(mid) == Some((value, more))
    requires ReadEntries(more).Some?
    ensures ReadEntries(s)
            == Some(([Entry(key, value)] + ReadEntries(more).value.0, ReadEntries(more).value.1))
  {
    hide ReadValue;
  }

  lemma {:induction false} ReadEntriesStep(e: Entry, more: string)
    requires ReadValue(Print(e.value) + more) == Some((Truncate(e.value), more))
    requires ReadEntries(more).Some?
    ensures ReadEntries(PrintEntry(e) + more)
            == Some(([Entry(CString(e.key), Truncate(e.value))] + ReadEntries(more).value.0, ReadEntries(more).value.1))
  {
    hide Print, WellFormed, Truncate, ReadValue, ReadEntries, Escape;
    var mid := [' '] + (Print(e.value) + more);
    ReadString(CString(e.key), mid);
    ReadSpaced(Print(e.value) + more);
    assert PrintEntry(e) + more == EdnString(CString(e.key)) + mid;
    ReadEntriesAt(PrintEntry(e) + more, CString(e.key), mid, Truncate(e.value), more);
  }

  lemma {:induction false} TokensRead()
    ensures ReadToken("nil") == Some(Null) && ReadToken("true") == Some(Bool(true)) && ReadToken("false") == Some(Bool(false))
  {
  }

  // Whatever delimited text follows, the reader takes exactly the printed text and
  // returns the tree with its strings cut at their first NUL.
  lemma {:induction false} ReadPrinted(j: Json, rest: string)
    requires WellFormed(j) && Delimited(rest)
    ensures ReadValue(Print(j) + rest) == Some((Truncate(j), rest))
    decreases j, 1
  {
    hide ReadValue, ReadItems, ReadEntries, ReadToken, EdnString, CString, PrintInt, PrintItems, PrintEntries,
      TruncateItems, TruncateEntries;
    TokensRead();
    match j
    case Null => ReadTokenText("nil", rest);
    case Bool(b) => ReadTokenText(if b then "true" else "false", rest);
    case Double(text) => ReadPrintedDouble(text, rest);
    case Int(n) => ReadPrintedInt(n, rest);
    case String(s) => ReadString(CString(s), rest);
    case Array(items) =>
      ReadPrintedItems(items, rest);
      ReadPrintedArray(items, rest);
    case Object(entries) =>
      ReadPrintedEntries(entries, rest);
      ReadPrintedObject(entries, rest);
  }

  lemma {:induction false} ReadPrintedArray(items: seq<Json>, rest: string)
    requires ReadItems(PrintItems(items) + ([']'] + rest)) == Some((TruncateItems(items), rest))
    ensures ReadValue(Print(Array(items)) + rest) == Some((Truncate(Array(items)), rest))
  {
    hide ReadValue, ReadItems, ReadEntries, PrintItems, TruncateItems;
    ReadOpened(PrintItems(items) + ([']'] + rest));
    assert Print(Array(items)) + rest == ['['] + (PrintItems(items) + ([']'] + rest));
  }

  lemma {:induction false} ReadPrintedObject(entries: seq<Entry>, rest: string)
    requires ReadEntries(PrintEntries(entries) + (['}'] + rest)) == Some((TruncateEntries(entries), rest))
    ensures ReadValue(Print(Object(entries)) + rest) == Some((Truncate(Object(entries)), rest))
  {
    hide ReadValue, ReadItems, ReadEntries, PrintEntries, TruncateEntries;
    ReadOpened(PrintEntries(entries) + (['}'] + rest));
    assert Print(Object(entries)) + rest == ['{'] + (PrintEntries(entries) + (['}'] + rest));
  }

  lemma {:induction false} ReadPrintedItems(items: seq<Json>, rest: string)
    requires forall i :: 0 <= i < |items| ==> WellFormed(items[i])
    ensures ReadItems(PrintItems(items) + ([']'] + rest)) == Some((TruncateItems(items), rest))
    decreases items, 0
  {
    hide ReadValue, ReadItems, ReadEntries, WellFormed, Print, Truncate;
    var close := [']'] + rest;
    if items == [] {
      ReadClosed(rest);
      assert PrintItems(items) + close == close;
    } else if |items| == 1 {
      ReadClosed(rest);
      ReadPrinted(items[0], close);
      ReadItemsStep(items[0], close);
    } else {
      var inner := PrintItems(items[1..]) + close;
      ReadPrintedItems(items[1..], rest);
      ReadSpaced(inner);
      ReadPrinted(items[0], [' '] + inner);
      ReadItemsStep(items[0], [' '] + inner);
      assert PrintItems(items) + close == Print(items[0]) + ([' '] + inner);
    }
  }

  lemma {:induction false} ReadPrintedEntries(entries: seq<Entry>, rest: string)
    requires forall i :: 0 <= i < |entries| ==> WellFormed(entries[i].value)
    ensures ReadEntries(PrintEntries(entries) + (['}'] + rest)) == Some((TruncateEntries(entries), rest))
    decreases entries, 0
  {
    hide ReadValue, ReadItems, ReadEntries, WellFormed, Print, PrintEntry, Truncate;
    var close := ['}'] + rest;
    if entries == [] {
      ReadClosed(rest);
      assert PrintEntries(entries) + close == close;
    } else if |entries| == 1 {
      ReadClosed(rest);
      ReadPrinted(entries[0].value, close);
      ReadEntriesStep(entries[0], close);
    } else {
      var inner := PrintEntries(entries[1..]) + close;
      ReadPrintedEntries(entries[1..], rest);
      ReadSpaced(inner);
      ReadPrinted(entries[0].value, [' '] + inner);
      ReadEntriesStep(entries[0], [' '] + inner);
      assert PrintEntries(entries) + close == PrintEntry(entries[0]) + ([' '] + inner);
    }
  }

  // The round trip returns the very tree exactly when no string or key in it
  // holds a NUL, for any delimited continuation.
  lemma {:induction false} RoundTrip(j: Json, rest: string)
    requires WellFormed(j) && Delimited(rest)
    ensures ReadValue(Print(j) + rest) == Some((j, rest)) <==> NoNul(j)
  {
    ReadPrinted(j, rest);
    TruncateIsIdentity(j);
  }

  // Printing is injective up to the cut at NUL, even inside a longer text.
  lemma {:induction false} PrintIsInjective(j: Json, k: Json, rest: string, rest': string)
    requires WellFormed(j) && WellFormed(k) && Delimited(rest) && Delimited(rest')
    ensures Print(j) + rest == Print(k) + rest' ==> Truncate(j) == Truncate(k) && rest == rest'
    ensures Print(j) == Print(k) && NoNul(j) && NoNul(k) ==> j == k
  {
    ReadPrinted(j, rest);
    ReadPrinted(k, rest');
    ReadPrinted(j, "");
    ReadPrinted(k, "");
    assert Print(j) + "" == Print(j) && Print(k) + "" == Print(k);
    TruncateIsIdentity(j);
    TruncateIsIdentity(k);
  }
}
