// The printing loops of the native runtime and the invocation envelope built on them.
module EdnPrinter {
  import opened Wrappers
  import opened Edn
  import opened EdnRoundTrip
  import Decimal

  method WriteString(value: string) returns (result: string)
    ensures result == EdnString(value)
  {
    result := ['"'];
    var i := 0;
    assert value[0..] == value;
    while i < |value|
      invariant 0 <= i <= |value|
      invariant result + Escape(value[i..]) == ['"'] + Escape(value)
    {
      EscapeStep(value, i, result);
      result := result + EscapeChar(value[i]);
      i := i + 1;
    }
    result := result + ['"'];
  }

  lemma {:induction false} EscapeStep(value: string, i: nat, prefix: string)
    requires i < |value|
    ensures prefix + Escape(value[i..]) == prefix + EscapeChar(value[i]) + Escape(value[i + 1..])
  {
    hide EscapeChar;
    assert value[i..][1..] == value[i + 1..];
  }

  // What is left to print of an array or an object from its i-th part on, with the space
  // before it.
  function ItemsFrom(items: seq<Json>, i: nat): string
    requires i <= |items|
  {
    if i == 0 then PrintItems(items) else if i == |items| then "" else [' '] + PrintItems(items[i..])
  }

  function EntriesFrom(entries: seq<Entry>, i: nat): string
    requires i <= |entries|
  {
    if i == 0 then PrintEntries(entries) else if i == |entries| then "" else [' '] + PrintEntries(entries[i..])
  }

  lemma {:induction false} ItemsStep(items: seq<Json>, i: nat)
    requires i < |items|
    ensures PrintItems(items[i..]) == Print(items[i]) + ItemsFrom(items, i + 1)
  {
    hide Print;
    var rest := items[i..];
    assert rest[1..] == items[i + 1..];
    if |rest| == 1 {
      assert Print(items[i]) + "" == Print(items[i]);
    }
  }

  lemma {:induction false} EntriesStep(entries: seq<Entry>, i: nat)
    requires i < |entries|
    ensures PrintEntries(entries[i..]) == PrintEntry(entries[i]) + EntriesFrom(entries, i + 1)
  {
    hide PrintEntry;
    var rest := entries[i..];
    assert rest[1..] == entries[i + 1..];
    if |rest| == 1 {
      assert PrintEntry(entries[i]) + "" == PrintEntry(entries[i]);
    }
  }

  // One turn of the array loop: the space, if it is not the first, and the item.
  lemma {:induction false} ItemsTurn(items: seq<Json>, i: nat, prefix: string)
    requires i < |items|
    ensures i == 0 ==> prefix + ItemsFrom(items, i) == prefix + Print(items[i]) + ItemsFrom(items, i + 1)
    ensures i != 0 ==> prefix + ItemsFrom(items, i) == prefix + [' '] + Print(items[i]) + ItemsFrom(items, i + 1)
  {
    hide Print, PrintItems;
    ItemsStep(items, i);
    assert items[0..] == items;
  }

  lemma {:induction false} EntriesTurn(entries: seq<Entry>, i: nat, prefix: string)
    requires i < |entries|
    ensures i == 0 ==> prefix + EntriesFrom(entries, i) == prefix + PrintEntry(entries[i]) + EntriesFrom(entries, i + 1)
    ensures i != 0 ==>
              prefix + EntriesFrom(entries, i) == prefix + [' '] + PrintEntry(entries[i]) + EntriesFrom(entries, i + 1)
  {
    hide PrintEntry, PrintEntries;
    EntriesStep(entries, i);
    assert entries[0..] == entries;
  }

  lemma {:induction false} ItemsEnds(items: seq<Json>)
    ensures ItemsFrom(items, 0) == PrintItems(items) && ItemsFrom(items, |items|) == ""
  {
    hide Print;
  }

  lemma {:induction false} EntriesEnds(entries: seq<Entry>)
    ensures EntriesFrom(entries, 0) == PrintEntries(entries) && EntriesFrom(entries, |entries|) == ""
  {
    hide PrintEntry;
  }

  // The recursive conversion. Arrays and objects put one space between parts.
  method WriteValue(j: Json) returns (result: string)
    ensures result == Print(j)
    decreases j, 1
  {
    match j
    case Null => result := "nil";
    case Bool(b) => result := if b then "true" else "false";
    case Double(text) => result := CString(text);
    case Int(n) => result := PrintInt(n);
    case String(s) => result := WriteString(CString(s));
    case Array(items) => result := WriteItems(items);
    case Object(entries) => result := WriteEntries(entries);
  }

  method WriteItems(items: seq<Json>) returns (result: string)
    ensures result == ['['] + PrintItems(items) + [']']
    decreases items, 0
  {
    hide Print, PrintItems, ItemsFrom;
    ItemsEnds(items);
    result := ['['];
    for i := 0 to |items|
      invariant result + ItemsFrom(items, i) == ['['] + PrintItems(items)
    {
      ItemsTurn(items, i, result);
      if i != 0 {
        result := result + [' '];
      }
      var text := WriteValue(items[i]);
      result := result + text;
    }
    assert result + "" == result;
    result := result + [']'];
  }

  method WriteEntry(e: Entry) returns (result: string)
    ensures result == PrintEntry(e)
    decreases e, 2
  {
    hide Print, EdnString;
    var key := WriteString(CString(e.key));
    var text := WriteValue(e.value);
    result := key + [' '] + text;
  }

  method WriteEntries(entries: seq<Entry>) returns (result: string)
    ensures result == ['{'] + PrintEntries(entries) + ['}']
    decreases entries, 0
  {
    hide Print, PrintEntry, PrintEntries, EntriesFrom;
    EntriesEnds(entries);
    result := ['{'];
    for i := 0 to |entries|
      invariant result + EntriesFrom(entries, i) == ['{'] + PrintEntries(entries)
    {
      EntriesTurn(entries, i, result);
      if i != 0 {
        result := result + [' '];
      }
      var text := WriteEntry(entries[i]);
      result := result + text;
    }
    assert result + "" == result;
    result := result + ['}'];
  }

  // ---------- The invocation envelope ----------

  predicate SafeRequestId(id: string) {
    && 1 <= |id| <= 256
    && forall i :: 0 <= i < |id| ==> 'a' <= id[i] <= 'z' || 'A' <= id[i] <= 'Z' || '0' <= id[i] <= '9' || id[i] == '-'
  }

  // The three keys of the envelope.
  datatype Keys = Keys(id: string, deadline: string, event: string)

  const ENVELOPE_KEYS := Keys("requestId", "deadlineMs", "event")

  predicate PlainKeys(k: Keys) { '\0' !in k.id && '\0' !in k.deadline && '\0' !in k.event }

  // The deadline header is any nonempty run of digits and is copied as it stands.
  function Envelope(k: Keys, id: string, deadline: string, event: string): string {
    ['{'] + (EdnString(k.id) + ([' '] + (EdnString(id) + ([' '] + EnvelopeRest(k, deadline, event)))))
  }

  function EnvelopeRest(k: Keys, deadline: string, event: string): string {
    EdnString(k.deadline) + ([' '] + (deadline + ([' '] + (EdnString(k.event) + ([' '] + (event + ['}']))))))
  }

  function Invocation(k: Keys, id: string, deadline: Int64, event: Json): Json {
    Object([Entry(k.id, String(id)), Entry(k.deadline, Int(deadline)), Entry(k.event, event)])
  }

  predicate ReadableDeadline(deadline: string)
    requires Decimal.AllDigits(deadline)
  {
    Decimal.Canonical(deadline) && Decimal.Value(deadline) < 0x8000_0000_0000_0000
  }

  // The envelope is the printed invocation when the deadline is a printed number.
  lemma {:induction false} EnvelopeIsPrinted(k: Keys, id: string, deadline: Int64, event: Json)
    requires PlainKeys(k) && '\0' !in id && deadline >= 0
    ensures Print(Invocation(k, id, deadline, event)) == Envelope(k, id, Decimal.Print(deadline), Print(event))
  {
    hide EdnString, Print, CString;
    CStringIdentity(id);
    CStringIdentity(k.id);
    CStringIdentity(k.deadline);
    CStringIdentity(k.event);
    var e0, e1, e2 := Entry(k.id, String(id)), Entry(k.deadline, Int(deadline)), Entry(k.event, event);
    PrintOfString(id);
    PrintOfInt(deadline);
    PrintOfObject([e0, e1, e2]);
    EntriesOfThree(e0, e1, e2);
    Flatten(EdnString(k.id), EdnString(id), EdnString(k.deadline), Decimal.Print(deadline), EdnString(k.event), Print(event));
  }

  lemma {:induction false} Flatten(a: string, b: string, c: string, d: string, e: string, f: string)
    ensures var rest := c + ([' '] + (d + ([' '] + (e + ([' '] + (f + ['}']))))));
            ['{'] + (a + [' '] + b + [' '] + (c + [' '] + d + [' '] + (e + [' '] + f))) + ['}']
            == ['{'] + (a + ([' '] + (b + ([' '] + rest))))
  {
    var t1 := e + [' '] + f;
    var t2 := c + [' '] + d + [' '] + t1;
    assert t1 + ['}'] == e + ([' '] + (f + ['}']));
    assert t2 + ['}'] == c + ([' '] + (d + ([' '] + (t1 + ['}']))));
    assert ['{'] + (a + [' '] + b + [' '] + t2) + ['}'] == ['{'] + (a + ([' '] + (b + ([' '] + (t2 + ['}'])))));
  }

  lemma {:induction false} PrintOfString(s: string)
    ensures Print(String(s)) == EdnString(CString(s))
  {
  }

  lemma {:induction false} PrintOfInt(n: Int64)
    ensures Print(Int(n)) == PrintInt(n)
  {
  }

  lemma {:induction false} PrintOfObject(entries: seq<Entry>)
    ensures Print(Object(entries)) == ['{'] + PrintEntries(entries) + ['}']
  {
  }

  lemma {:induction false} EntriesOfThree(e0: Entry, e1: Entry, e2: Entry)
    ensures PrintEntries([e0, e1, e2]) == PrintEntry(e0) + [' '] + (PrintEntry(e1) + [' '] + PrintEntry(e2))
  {
    hide PrintEntry;
    assert [e0, e1, e2][1..] == [e1, e2] && [e1, e2][1..] == [e2];
    assert PrintEntries([e2]) == PrintEntry(e2);
    assert PrintEntries([e1, e2]) == PrintEntry(e1) + [' '] + PrintEntry(e2);
  }

  // The ids that are accepted, by the codes of their characters: hyphens, digits, capitals
  // and small letters.
  lemma {:induction false} SafeRequestIds(id: string)
    ensures SafeRequestId(id) <==>
              1 <= |id| <= 256
              && forall i :: 0 <= i < |id| ==>
                   id[i] as int == 45 || 48 <= id[i] as int <= 57 || 65 <= id[i] as int <= 90 || 97 <= id[i] as int <= 122
  {
  }

  lemma {:induction false} EscapePlain(s: string)
    requires forall i :: 0 <= i < |s| ==> s[i] as int >= 32 && s[i] != '"' && s[i] != '\\'
    ensures Escape(s) == s
  {
    if s != "" {
      EscapePlain(s[1..]);
      assert s == [s[0]] + s[1..];
    }
  }

  function Quoted(s: string): string { ['"'] + s + ['"'] }

  // The text of the envelope: three keys in quotes, the id in quotes, and the deadline and
  // the event as they are.
  lemma {:induction false} EnvelopeText(id: string, deadline: string, event: string)
    requires SafeRequestId(id)
    ensures Envelope(ENVELOPE_KEYS, id, deadline, event)
         == ['{'] + (Quoted("requestId") + ([' '] + (Quoted(id) + ([' '] + (Quoted("deadlineMs") + ([' '] + (deadline
            + ([' '] + (Quoted("event") + ([' '] + (event + ['}'])))))))))))
  {
    hide EdnString, Quoted, SafeRequestId, Envelope;
    EnvelopeKeyTexts();
    SafeIsQuoted(id);
    EnvelopeOf(ENVELOPE_KEYS, id, deadline, event, Quoted("requestId"), Quoted(id), Quoted("deadlineMs"), Quoted("event"));
  }

  lemma {:induction false} SafeIsQuoted(id: string)
    requires SafeRequestId(id)
    ensures EdnString(id) == Quoted(id)
  {
    hide EdnString, Quoted;
    PlainIsQuoted(id);
  }

  lemma {:induction false} EnvelopeOf(
    k: Keys, id: string, deadline: string, event: string, key0: string, text: string, key1: string, key2: string)
    requires EdnString(k.id) == key0 && EdnString(id) == text
    requires EdnString(k.deadline) == key1 && EdnString(k.event) == key2
    ensures Envelope(k, id, deadline, event)
         == ['{'] + (key0 + ([' '] + (text + ([' '] + (key1 + ([' '] + (deadline
            + ([' '] + (key2 + ([' '] + (event + ['}'])))))))))))
  {
    hide EdnString;
  }

  lemma {:induction false} PlainIsQuoted(s: string)
    requires forall i :: 0 <= i < |s| ==> s[i] as int >= 32 && s[i] != '"' && s[i] != '\\'
    ensures EdnString(s) == Quoted(s)
  {
    hide Escape;
    EscapePlain(s);
  }

  lemma {:induction false} EnvelopeKeyTexts()
    ensures EdnString(ENVELOPE_KEYS.id) == Quoted("requestId")
    ensures EdnString(ENVELOPE_KEYS.deadline) == Quoted("deadlineMs")
    ensures EdnString(ENVELOPE_KEYS.event) == Quoted("event")
  {
    hide EdnString, Quoted;
    PlainIsQuoted("requestId");
    PlainIsQuoted("deadlineMs");
    PlainIsQuoted("event");
  }

  // The reader of Edn finds the request id, the deadline and the event tree, its strings
  // cut at their first NUL, exactly when the deadline header has no superfluous leading
  // zero and fits a 64-bit integer; otherwise it can read nothing.
  lemma {:induction false} EnvelopeReads(id: string, deadline: string, event: Json)
    requires SafeRequestId(id)
    requires deadline != "" && Decimal.AllDigits(deadline)
    requires WellFormed(event)
    ensures var read := ReadValue(Envelope(ENVELOPE_KEYS, id, deadline, Print(event)));
            if ReadableDeadline(deadline)
            then read == Some((Invocation(ENVELOPE_KEYS, id, Decimal.Value(deadline), Truncate(event)), ""))
            else read == None
  {
    hide Print, ReadValue, WellFormed, Truncate, Envelope;
    assert PlainKeys(ENVELOPE_KEYS);
    if ReadableDeadline(deadline) {
      Decimal.CanonicalIsPrinted(deadline);
      ReadableEnvelope(ENVELOPE_KEYS, id, Decimal.Value(deadline), event);
    } else {
      UnreadableEnvelope(ENVELOPE_KEYS, id, deadline, Print(event));
    }
  }

  // Deadlines that next_invocation accepts and the reader cannot read: one with a leading
  // zero and the first one past 64 bits.
  lemma {:induction false} UnreadableDeadlines(id: string, event: Json)
    requires SafeRequestId(id) && WellFormed(event)
    ensures ReadValue(Envelope(ENVELOPE_KEYS, id, "01", Print(event))) == None
    ensures ReadValue(Envelope(ENVELOPE_KEYS, id, "9223372036854775808", Print(event))) == None
  {
    hide Print, ReadValue, WellFormed, Truncate, Envelope, Decimal.Value, Decimal.Print;
    EnvelopeReads(id, "01", event);
    PastInt64();
    EnvelopeReads(id, "9223372036854775808", event);
  }

  lemma {:induction false} UpToInt64()
    ensures Decimal.AllDigits("92233720368") && Decimal.Value("92233720368") == 92233720368
  {
    assert Decimal.Value("922") == 922 by { assert "922"[..2] == "92" && "92"[..1] == "9" && "9"[..0] == ""; }
    hide Decimal.Value;
    Decimal.AppendFour("922", '3', '3', '7', '2');
    assert "922" + ['3', '3', '7', '2'] == "9223372";
    Decimal.AppendFour("9223372", '0', '3', '6', '8');
    assert "9223372" + ['0', '3', '6', '8'] == "92233720368";
  }

  lemma {:induction false} PastInt64()
    ensures Decimal.AllDigits("9223372036854775808")
    ensures Decimal.Value("9223372036854775808") == 0x8000_0000_0000_0000
  {
    hide Decimal.Value, Decimal.AllDigits;
    UpToInt64();
    Decimal.AppendFour("92233720368", '5', '4', '7', '7');
    assert "92233720368" + ['5', '4', '7', '7'] == "922337203685477";
    Decimal.AppendFour("922337203685477", '5', '8', '0', '8');
    assert "922337203685477" + ['5', '8', '0', '8'] == "9223372036854775808";
  }

  lemma {:induction false} InvocationTruncates(k: Keys, id: string, deadline: Int64, event: Json)
    requires PlainKeys(k) && '\0' !in id && WellFormed(event)
    ensures WellFormed(Invocation(k, id, deadline, event))
    ensures Truncate(Invocation(k, id, deadline, event)) == Invocation(k, id, deadline, Truncate(event))
  {
    hide CString;
    var e0, e1, e2 := Entry(k.id, String(id)), Entry(k.deadline, Int(deadline)), Entry(k.event, event);
    var entries := [e0, e1, e2];
    assert WellFormed(String(id)) && WellFormed(Int(deadline));
    forall i | 0 <= i < |entries| ensures WellFormed(entries[i].value) {
      assert i == 0 || i == 1 || i == 2;
    }
    CStringIdentity(id);
    CStringIdentity(k.id);
    CStringIdentity(k.deadline);
    CStringIdentity(k.event);
    assert entries[1..] == [e1, e2] && [e1, e2][1..] == [e2] && [e2][1..] == [];
    assert TruncateEntries([e2]) == [Entry(k.event, Truncate(event))];
    assert TruncateEntries([e1, e2]) == [e1, Entry(k.event, Truncate(event))];
    assert TruncateEntries(entries) == [e0, e1, Entry(k.event, Truncate(event))];
  }

  lemma {:induction false} ReadableEnvelope(k: Keys, id: string, deadline: Int64, event: Json)
    requires PlainKeys(k) && '\0' !in id && deadline >= 0
    requires WellFormed(event)
    ensures ReadValue(Envelope(k, id, Decimal.Print(deadline), Print(event)))
            == Some((Invocation(k, id, deadline, Truncate(event)), ""))
  {
    hide Print, ReadValue, Envelope;
    EnvelopeIsPrinted(k, id, deadline, event);
    var j := Invocation(k, id, deadline, event);
    InvocationTruncates(k, id, deadline, event);
    ReadPrinted(j, "");
    assert Print(j) + "" == Print(j);
  }

  lemma {:induction false} UnreadableEnvelope(k: Keys, id: string, deadline: string, event: string)
    requires deadline != "" && Decimal.AllDigits(deadline)
    requires !ReadableDeadline(deadline)
    ensures ReadValue(Envelope(k, id, deadline, event)).None?
  {
    hide ReadValue, ReadEntries, Escape;
    var after := [' '] + (EdnString(k.event) + ([' '] + (event + ['}'])));
    var second := EnvelopeRest(k, deadline, event);
    var first := EdnString(k.id) + ([' '] + (EdnString(id) + ([' '] + second)));
    UnreadableRest(k, deadline, event);
    ReadString(k.id, [' '] + (EdnString(id) + ([' '] + second)));
    ReadString(id, [' '] + second);
    ReadSpaced(EdnString(id) + ([' '] + second));
    ReadSpaced(second);
    LaterEntriesFail(first, k.id, [' '] + (EdnString(id) + ([' '] + second)), String(id), [' '] + second);
    ObjectFails(first);
  }

  lemma {:induction false} UnreadableRest(k: Keys, deadline: string, event: string)
    requires deadline != "" && Decimal.AllDigits(deadline)
    requires !ReadableDeadline(deadline)
    ensures ReadEntries(EnvelopeRest(k, deadline, event)).None?
  {
    hide ReadValue, ReadEntries, Escape;
    var after := [' '] + (EdnString(k.event) + ([' '] + (event + ['}'])));
    DigitTokenFails(deadline, after);
    ReadString(k.deadline, [' '] + (deadline + after));
    ReadSpaced(deadline + after);
    EntriesFail(EnvelopeRest(k, deadline, event), k.deadline, [' '] + (deadline + after));
  }

  lemma {:induction false} DigitTokenFails(digits: string, rest: string)
    requires digits != "" && Decimal.AllDigits(digits) && !ReadableDeadline(digits)
    requires Delimited(rest)
    ensures ReadValue(digits + rest).None?
  {
    assert Decimal.IsDigit(digits[0]);
    TokenPrefix(digits, rest);
    var s := digits + rest;
    assert s[..|digits|] == digits && s[0] == digits[0];
    assert '.' !in digits && 'e' !in digits && 'E' !in digits;
    assert ReadToken(digits).None?;
  }

  lemma {:induction false} EntriesFail(s: string, key: string, mid: string)
    requires s != "" && !IsSpace(s[0]) && s[0] != '}'
    requires ReadValue(s) == Some((String(key), mid))
    requires ReadValue(mid).None?
    ensures ReadEntries(s).None?
  {
    hide ReadValue;
  }

  lemma {:induction false} LaterEntriesFail(s: string, key: string, mid: string, value: Json, more: string)
    requires s != "" && !IsSpace(s[0]) && s[0] != '}'
    requires ReadValue(s) == Some((String(key), mid))
    requires ReadValue(mid) == Some((value, more))
    requires ReadEntries(more).None?
    ensures ReadEntries(s).None?
  {
    hide ReadValue;
  }

  lemma {:induction false} ObjectFails(inner: string)
    requires ReadEntries(inner).None?
    ensures ReadValue(['{'] + inner).None?
  {
    assert (['{'] + inner)[1..] == inner;
  }
}
