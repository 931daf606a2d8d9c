// The seven identifier templates of the fixture generator and a parser for them.
module FixtureIds {
  import opened Wrappers
  import Decimal

  // Numbers that a template prints as plain decimal digits.
  type SafeInt = x: int | 0 <= x < 0x20_0000_0000_0000

  datatype Id =
    | Account(account: SafeInt)
    | Owner(account: SafeInt)
    | Team(account: SafeInt, ordinal: SafeInt)
    | Leader(account: SafeInt, ordinal: SafeInt)
    | Vpc(account: SafeInt, ordinal: SafeInt)
    | VpcAdmin(account: SafeInt, ordinal: SafeInt)
    | Server(account: SafeInt, ordinal: SafeInt)

  // The template literals.
  function Name(id: Id): string {
    match id
    case Account(a) => "account-" + Decimal.Print(a)
    case Owner(a) => "account-" + Decimal.Print(a) + "-owner"
    case Team(a, t) => "account-" + Decimal.Print(a) + "-team-" + Decimal.Print(t)
    case Leader(a, t) => "account-" + Decimal.Print(a) + "-team-" + Decimal.Print(t) + "-leader"
    case Vpc(a, v) => "account-" + Decimal.Print(a) + "-vpc-" + Decimal.Print(v)
    case VpcAdmin(a, v) => "account-" + Decimal.Print(a) + "-vpc-" + Decimal.Print(v) + "-admin"
    case Server(a, s) => "account-" + Decimal.Print(a) + "-server-" + Decimal.Print(s)
  }

  function Strip(prefix: string, s: string): Option<string> {
    if prefix <= s then Some(s[|prefix|..]) else None
  }

  // A canonical number and the text after its last digit.
  function ParseNumber(s: string): Option<(SafeInt, string)> {
    var n := Decimal.Span(s);
    var digits := s[..n];
    if Decimal.Canonical(digits) && Decimal.Value(digits) < 0x20_0000_0000_0000
    then Some((Decimal.Value(digits), s[n..]))
    else None
  }

  function Parse(s: string): Option<Id> {
    match Strip("account-", s)
    case None => None
    case Some(text) =>
      match ParseNumber(text)
      case None => None
      case Some((a, rest)) => ParseRest(a, rest)
  }

  function ParseRest(a: SafeInt, rest: string): Option<Id> {
    if rest == "" then Some(Account(a))
    else if rest == "-owner" then Some(Owner(a))
    else if "-team-" <= rest then
      match ParseNumber(rest[|"-team-"|..])
      case None => None
      case Some((t, tail)) =>
        if tail == "" then Some(Team(a, t)) else if tail == "-leader" then Some(Leader(a, t)) else None
    else if "-vpc-" <= rest then
      match ParseNumber(rest[|"-vpc-"|..])
      case None => None
      case Some((v, tail)) =>
        if tail == "" then Some(Vpc(a, v)) else if tail == "-admin" then Some(VpcAdmin(a, v)) else None
    else if "-server-" <= rest then
      match ParseNumber(rest[|"-server-"|..])
      case None => None
      case Some((n, tail)) => if tail == "" then Some(Server(a, n)) else None
    else None
  }

  // What a name has after the account number.
  function Rest(id: Id): string {
    match id
    case Account(_) => ""
    case Owner(_) => "-owner"
    case Team(_, t) => "-team-" + (Decimal.Print(t) + "")
    case Leader(_, t) => "-team-" + (Decimal.Print(t) + "-leader")
    case Vpc(_, v) => "-vpc-" + (Decimal.Print(v) + "")
    case VpcAdmin(_, v) => "-vpc-" + (Decimal.Print(v) + "-admin")
    case Server(_, s) => "-server-" + (Decimal.Print(s) + "")
  }

  lemma {:induction false} NameParts(id: Id)
    ensures Name(id) == "account-" + (Decimal.Print(id.account) + Rest(id))
    ensures Rest(id) == "" || !Decimal.IsDigit(Rest(id)[0])
  {
    hide Decimal.Print;
  }

  // A printed number followed by anything but a digit is read back whole.
  lemma {:induction false} ParsePrinted(n: SafeInt, rest: string)
    requires rest == "" || !Decimal.IsDigit(rest[0])
    ensures ParseNumber(Decimal.Print(n) + rest) == Some((n, rest))
  {
    Decimal.PrintIsCanonical(n);
    Decimal.SpanOf(Decimal.Print(n), rest);
  }

  lemma {:induction false} ParseNumberSound(s: string)
    ensures ParseNumber(s).Some? ==> s == Decimal.Print(ParseNumber(s).value.0) + ParseNumber(s).value.1
  {
    if ParseNumber(s).Some? {
      Decimal.CanonicalIsPrinted(s[..Decimal.Span(s)]);
    }
  }

  lemma {:induction false} StripPrefix(prefix: string, s: string)
    ensures prefix <= prefix + s && (prefix + s)[|prefix|..] == s
  {
  }

  lemma {:induction false} ParseOfRest(id: Id)
    ensures ParseRest(id.account, Rest(id)) == Some(id)
  {
    hide Decimal.Print, ParseNumber;
    match id
    case Account(_) =>
    case Owner(_) =>
    case Team(_, t) =>
      ParsePrinted(t, "");
      StripPrefix("-team-", Decimal.Print(t) + "");
      assert Rest(id)[1] == 't';
    case Leader(_, t) =>
      ParsePrinted(t, "-leader");
      StripPrefix("-team-", Decimal.Print(t) + "-leader");
      assert Rest(id)[1] == 't';
    case Vpc(_, v) =>
      ParsePrinted(v, "");
      StripPrefix("-vpc-", Decimal.Print(v) + "");
      assert Rest(id)[1] == 'v';
    case VpcAdmin(_, v) =>
      ParsePrinted(v, "-admin");
      StripPrefix("-vpc-", Decimal.Print(v) + "-admin");
      assert Rest(id)[1] == 'v';
    case Server(_, s) =>
      ParsePrinted(s, "");
      StripPrefix("-server-", Decimal.Print(s) + "");
      assert Rest(id)[1] == 's';
  }

  // The kind and every number of an object are recovered from its name.
  lemma {:induction false} ParseOfName(id: Id)
    ensures Parse(Name(id)) == Some(id)
  {
    hide Decimal.Print, ParseNumber, ParseRest, Rest, Name;
    NameParts(id);
    ParsePrinted(id.account, Rest(id));
    StripPrefix("account-", Decimal.Print(id.account) + Rest(id));
    ParseOfRest(id);
  }

  lemma {:induction false} RestOfParse(a: SafeInt, rest: string)
    ensures ParseRest(a, rest).Some?
            ==> ParseRest(a, rest).value.account == a && Rest(ParseRest(a, rest).value) == rest
  {
    hide Decimal.Print, ParseNumber;
    if "-team-" <= rest {
      ParseNumberSound(rest[|"-team-"|..]);
      assert rest == "-team-" + rest[|"-team-"|..];
    }
    if "-vpc-" <= rest {
      ParseNumberSound(rest[|"-vpc-"|..]);
      assert rest == "-vpc-" + rest[|"-vpc-"|..];
    }
    if "-server-" <= rest {
      ParseNumberSound(rest[|"-server-"|..]);
      assert rest == "-server-" + rest[|"-server-"|..];
    }
  }

  // Every text that parses is the name of what it parses to.
  lemma {:induction false} NameOfParse(s: string)
    ensures Parse(s).Some? ==> Name(Parse(s).value) == s
  {
    hide Decimal.Print, ParseNumber, ParseRest, Rest, Name;
    if Parse(s).Some? {
      var text := s[|"account-"|..];
      assert s == "account-" + text;
      ParseNumberSound(text);
      var (a, rest) := ParseNumber(text).value;
      RestOfParse(a, rest);
      NameParts(Parse(s).value);
    }
  }

  // No two different objects share a name.
  lemma {:induction false} NamesAreDistinct(id: Id, other: Id)
    ensures Name(id) == Name(other) <==> id == other
  {
    hide Name, Parse;
    ParseOfName(id);
    ParseOfName(other);
  }
}
