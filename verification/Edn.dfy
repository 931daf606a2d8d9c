// The EDN printer of the native runtime and a reader for what it prints.
//
// Text is a sequence of characters; the printer works byte by byte and treats
// every byte from 0x80 up alike, so nothing here depends on the encoding.
module Edn {
  import opened Wrappers
  import Decimal

  type Int64 = x: int | -0x8000_0000_0000_0000 <= x < 0x8000_0000_0000_0000

  // A parsed JSON tree. A double keeps the text it was parsed from.
  datatype Json =
    | Null
    | Bool(value: bool)
    | Double(text: string)
    | Int(number: Int64)
    | String(chars: string)
    | Array(items: seq<Json>)
    | Object(entries: seq<Entry>)

  datatype Entry = Entry(key: string, value: Json)

  // ---------- Printing ----------

  function HexDigit(d: nat): (c: char)
    requires d < 16
    ensures IsHex(c) && HexValue(c) == d
  {
    if d < 10 then ('0' as int + d) as char else ('a' as int + (d - 10)) as char
  }

  function EscapeChar(c: char): string {
    if c == '"' then ['\\', '"']
    else if c == '\\' then ['\\', '\\']
    else if c as int == 8 then ['\\', 'b']
    else if c as int == 12 then ['\\', 'f']
    else if c == '\n' then ['\\', 'n']
    else if c == '\r' then ['\\', 'r']
    else if c == '\t' then ['\\', 't']
    else if c as int < 0x20 then ['\\', 'u', '0', '0', HexDigit(c as int / 16), HexDigit(c as int % 16)]
    else [c]
  }

  // What each character is printed as: five letters, the quote and the backslash after a
  // backslash, any other character below the blank by its code, and the rest as they are.
  lemma {:induction false} EscapesAre(c: char)
    ensures c as int in {8, 9, 10, 12, 13, 34, 92} ==> |EscapeChar(c)| == 2 && EscapeChar(c)[0] == '\\'
    ensures c as int < 32 && c as int !in {8, 9, 10, 12, 13} ==>
              && |EscapeChar(c)| == 6 && EscapeChar(c)[..4] == ['\\', 'u', '0', '0']
              && IsHex(EscapeChar(c)[4]) && IsHex(EscapeChar(c)[5])
              && HexValue(EscapeChar(c)[4]) * 16 + HexValue(EscapeChar(c)[5]) == c as int
    ensures c as int >= 32 && c != '"' && c != '\\' ==> EscapeChar(c) == [c]
  {
  }

  function Escape(s: string): string {
    if s == "" then "" else EscapeChar(s[0]) + Escape(s[1..])
  }

  function EdnString(s: string): string {
    ['"'] + Escape(s) + ['"']
  }

  // What a C string of these characters holds: everything before the first NUL.
  function CString(s: string): (r: string)
    ensures |r| <= |s| && r == s[..|r|] && '\0' !in r && (|r| < |s| ==> s[|r|] == '\0')
  {
    if s == "" || s[0] == '\0' then "" else [s[0]] + CString(s[1..])
  }

  function PrintInt(n: int): string {
    if n < 0 then ['-'] + Decimal.Print(-n) else Decimal.Print(n)
  }

  function Print(j: Json): string
    decreases j, 1
  {
    match j
    case Null => "nil"
    case Bool(b) => if b then "true" else "false"
    case Double(text) => CString(text)
    case Int(n) => PrintInt(n)
    case String(s) => EdnString(CString(s))
    case Array(items) => ['['] + PrintItems(items) + [']']
    case Object(entries) => ['{'] + PrintEntries(entries) + ['}']
  }

  function PrintItems(items: seq<Json>): string
    decreases items, 0
  {
    if items == [] then ""
    else if |items| == 1 then Print(items[0])
    else Print(items[0]) + [' '] + PrintItems(items[1..])
  }

  function PrintEntry(e: Entry): string
    decreases e, 2
  {
    EdnString(CString(e.key)) + [' '] + Print(e.value)
  }

  function PrintEntries(entries: seq<Entry>): string
    decreases entries, 0
  {
    if entries == [] then ""
    else if |entries| == 1 then PrintEntry(entries[0])
    else PrintEntry(entries[0]) + [' '] + PrintEntries(entries[1..])
  }

  // ---------- Reading ----------

  predicate IsSpace(c: char) { c == ' ' || c == ',' || c == '\n' || c == '\r' || c == '\t' }

  predicate IsDelimiter(c: char) {
    IsSpace(c) || c == '"' || c == ';' || c == '(' || c == ')' || c == '[' || c == ']' || c == '{' || c == '}'
  }

  // What may follow a token without becoming part of it.
  predicate Delimited(rest: string) { rest == "" || IsDelimiter(rest[0]) }

  predicate IsHex(c: char) { '0' <= c <= '9' || 'a' <= c <= 'f' || 'A' <= c <= 'F' }

  function HexValue(c: char): (v: nat)
    requires IsHex(c)
    ensures v < 16
  {
    if '0' <= c <= '9' then c as int - '0' as int
    else if 'a' <= c <= 'f' then c as int - 'a' as int + 10
    else c as int - 'A' as int + 10
  }

  // Reads one possibly escaped character of a string.
  function ReadChar(s: string): (r: Option<(char, string)>)
    requires s != ""
    ensures r.Some? ==> |r.value.1| < |s|
  {
    if s[0] != '\\' then Some((s[0], s[1..]))
    else if |s| < 2 then None
    else if s[1] == '"' || s[1] == '\\' then Some((s[1], s[2..]))
    else if s[1] == 'b' then Some((8 as char, s[2..]))
    else if s[1] == 'f' then Some((12 as char, s[2..]))
    else if s[1] == 'n' then Some(('\n', s[2..]))
    else if s[1] == 'r' then Some(('\r', s[2..]))
    else if s[1] == 't' then Some(('\t', s[2..]))
    else if s[1] == 'u' && |s| >= 6 && IsHex(s[2]) && IsHex(s[3]) && IsHex(s[4]) && IsHex(s[5]) then
      var v := ((HexValue(s[2]) * 16 + HexValue(s[3])) * 16 + HexValue(s[4])) * 16 + HexValue(s[5]);
      if v < 0xD800 || 0xE000 <= v then Some((v as char, s[6..])) else None
    else None
  }

  // Reads the characters after an opening quote, up to the closing one.
  function ReadChars(s: string): (r: Option<(string, string)>)
    ensures r.Some? ==> |r.value.1| < |s|
    decreases |s|
  {
    if s == "" then None
    else if s[0] == '"' then Some(("", s[1..]))
    else
      match ReadChar(s)
      case None => None
      case Some((c, rest)) =>
        match ReadChars(rest)
        case None => None
        case Some((cs, after)) => Some(([c] + cs, after))
  }

  // The length of the longest prefix without a delimiter.
  function TokenLength(s: string): (n: nat)
    ensures n <= |s|
  {
    if s == "" || IsDelimiter(s[0]) then 0 else 1 + TokenLength(s[1..])
  }

  predicate IsNumberChar(c: char) {
    Decimal.IsDigit(c) || c == '-' || c == '+' || c == '.' || c == 'e' || c == 'E'
  }

  // The text of a JSON number with a fraction or an exponent.
  predicate IsDoubleText(t: string) {
    && t != ""
    && (Decimal.IsDigit(t[0]) || t[0] == '-')
    && (forall i :: 0 <= i < |t| ==> IsNumberChar(t[i]))
    && ('.' in t || 'e' in t || 'E' in t)
  }

  function ReadToken(t: string): Option<Json> {
    if t == "nil" then Some(Null)
    else if t == "true" then Some(Bool(true))
    else if t == "false" then Some(Bool(false))
    else if Decimal.Canonical(t) then ReadInt(Decimal.Value(t))
    else if t != "" && t[0] == '-' && Decimal.Canonical(t[1..]) then ReadInt(-(Decimal.Value(t[1..]) as int))
    else if IsDoubleText(t) then Some(Double(t))
    else None
  }

  function ReadInt(n: int): Option<Json> {
    if -0x8000_0000_0000_0000 <= n < 0x8000_0000_0000_0000 then Some(Int(n)) else None
  }

  function ReadValue(s: string): (r: Option<(Json, string)>)
    ensures r.Some? ==> |r.value.1| < |s|
    decreases |s|, 0
  {
    if s == "" then None
    else if IsSpace(s[0]) then ReadValue(s[1..])
    else if s[0] == '"' then
      match ReadChars(s[1..])
      case None => None
      case Some((cs, rest)) => Some((String(cs), rest))
    else if s[0] == '[' then
      match ReadItems(s[1..])
      case None => None
      case Some((items, rest)) => Some((Array(items), rest))
    else if s[0] == '{' then
      match ReadEntries(s[1..])
      case None => None
      case Some((entries, rest)) => Some((Object(entries), rest))
    else
      var n := TokenLength(s);
      match ReadToken(s[..n])
      case None => None
      case Some(j) => if n == 0 then None else Some((j, s[n..]))
  }

  // Reads values up to and including the closing bracket.
  function ReadItems(s: string): (r: Option<(seq<Json>, string)>)
    ensures r.Some? ==> |r.value.1| < |s|
    decreases |s|, 1
  {
    if s == "" then None
    else if IsSpace(s[0]) then ReadItems(s[1..])
    else if s[0] == ']' then Some(([], s[1..]))
    else
      match ReadValue(s)
      case None => None
      case Some((item, rest)) =>
        match ReadItems(rest)
        case None => None
        case Some((items, after)) => Some(([item] + items, after))
  }

  // Reads key and value pairs up to and including the closing brace. A key is a
  // string, which is all this program prints.
  function ReadEntries(s: string): (r: Option<(seq<Entry>, string)>)
    ensures r.Some? ==> |r.value.1| < |s|
    decreases |s|, 1
  {
    if s == "" then None
    else if IsSpace(s[0]) then ReadEntries(s[1..])
    else if s[0] == '}' then Some(([], s[1..]))
    else
      match ReadValue(s)
      case None => None
      case Some((key, rest)) =>
        if !key.String? then None
        else
          match ReadValue(rest)
          case None => None
          case Some((value, next)) =>
            match ReadEntries(next)
            case None => None
            case Some((entries, after)) => Some(([Entry(key.chars, value)] + entries, after))
  }
}
