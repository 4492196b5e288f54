/** A reader of JSON texts, from the grammar of RFC 8259 (sections 2 to 7), for texts whose numbers
    have neither fraction nor exponent; and what it reads back of a dumped payload. */
module JsonReader {
  import opened Sequences
  import opened EventIds
  import opened Json

  /** What was read, and what is left. */
  datatype Parsed<+T> = Parsed(value: T, rest: string)

  // ---------- Strings: section 7 ----------

  predicate IsHex(c: char) {
    '0' <= c <= '9' || 'a' <= c <= 'f' || 'A' <= c <= 'F'
  }

  function HexValue(c: char): (n: nat)
    requires IsHex(c)
    ensures n < 16
  {
    if c <= '9' then c as int - '0' as int
    else if c <= 'F' then c as int - 'A' as int + 10
    else c as int - 'a' as int + 10
  }

  /** A `\uXXXX` at the start, as its code unit. */
  function ReadUnit(s: string): (r: Option<Parsed<nat>>)
    ensures r.Some? ==> r.value.value < 0x10000 && |r.value.rest| < |s|
  {
    if |s| >= 6 && s[0] == '\\' && s[1] == 'u' && IsHex(s[2]) && IsHex(s[3]) && IsHex(s[4]) && IsHex(s[5]) then
      Some(Parsed(HexValue(s[2]) * 4096 + HexValue(s[3]) * 256 + HexValue(s[4]) * 16 + HexValue(s[5]), s[6..]))
    else None
  }

  /** One character written as one code unit or as a surrogate pair. */
  function ReadUnicode(s: string): (r: Option<Parsed<char>>)
    ensures r.Some? ==> |r.value.rest| < |s|
  {
    match ReadUnit(s)
    case None => None
    case Some(Parsed(high, rest)) =>
      if high < 0xD800 || 0xE000 <= high then Some(Parsed(high as char, rest))
      else
        match ReadUnit(rest)
        case None => None
        case Some(Parsed(low, after)) =>
          if high < 0xDC00 && 0xDC00 <= low < 0xE000
          then Some(Parsed((0x10000 + (high - 0xD800) * 1024 + (low - 0xDC00)) as char, after)) else None
  }

  /** What a two-character escape stands for. */
  function Unescaped(c: char): Option<char> {
    match c
    case '"' => Some('"')
    case '\\' => Some('\\')
    case '/' => Some('/')
    case 'b' => Some(8 as char)
    case 'f' => Some(12 as char)
    case 'n' => Some(10 as char)
    case 'r' => Some(13 as char)
    case 't' => Some(9 as char)
    case _ => None
  }

  function ReadChar(s: string): (r: Option<Parsed<char>>)
    ensures r.Some? ==> |r.value.rest| < |s|
  {
    if s == "" || s[0] as int < 0x20 then None
    else if s[0] != '\\' then Some(Parsed(s[0], s[1..]))
    else if |s| == 1 then None
    else if s[1] == 'u' then ReadUnicode(s)
    else
      match Unescaped(s[1])
      case None => None
      case Some(c) => Some(Parsed(c, s[2..]))
  }

  /** The rest of a string whose opening quote has been read. */
  function ReadChars(s: string): (r: Option<Parsed<string>>)
    ensures r.Some? ==> |r.value.rest| < |s|
    decreases |s|
  {
    if s != "" && s[0] == '"' then Some(Parsed("", s[1..]))
    else
      match ReadChar(s)
      case None => None
      case Some(Parsed(c, rest)) =>
        match ReadChars(rest)
        case None => None
        case Some(Parsed(t, after)) => Some(Parsed([c] + t, after))
  }

  // ---------- Numbers: section 6 ----------

  function DigitsAtStart(s: string): (r: string)
    ensures r <= s && forall c :: c in r ==> IsDigit(c)
    ensures |r| == |s| || !IsDigit(s[|r|])
  {
    if s == "" || !IsDigit(s[0]) then "" else [s[0]] + DigitsAtStart(s[1..])
  }

  /** The number that decimal digits denote. */
  function Denoted(digits: string): (n: nat)
    requires forall c :: c in digits ==> IsDigit(c)
  {
    if digits == "" then 0
    else
      var last := digits[|digits| - 1];
      assert last in digits && IsDigit(last);
      assert '0' as int <= last as int <= '9' as int;
      10 * Denoted(digits[..|digits| - 1]) + (last as int - '0' as int)
  }

  /** An integer without its sign: no zero before other digits, no fraction, no exponent. */
  function ReadMagnitude(s: string): (r: Option<Parsed<nat>>)
    ensures r.Some? ==> |r.value.rest| < |s|
  {
    var digits := DigitsAtStart(s);
    var rest := s[|digits|..];
    if digits == "" || (digits[0] == '0' && |digits| > 1) then None
    else if rest != "" && (rest[0] == '.' || rest[0] == 'e' || rest[0] == 'E') then None
    else Some(Parsed(Denoted(digits), rest))
  }

  function Negated(n: int): Json {
    JInt(-n)
  }

  function ReadNumber(s: string): (r: Option<Parsed<Json>>)
    ensures r.Some? ==> |r.value.rest| < |s|
  {
    if s != "" && s[0] == '-' then
      match ReadMagnitude(s[1..])
      case None => None
      case Some(Parsed(n, rest)) => Some(Parsed(Negated(n), rest))
    else
      match ReadMagnitude(s)
      case None => None
      case Some(Parsed(n, rest)) => Some(Parsed(JInt(n), rest))
  }

  // ---------- Values, arrays and objects: sections 2 to 5 ----------

  function SkipSpace(s: string): (r: string)
    ensures |r| <= |s|
  {
    if s != "" && (s[0] == ' ' || s[0] == '\t' || s[0] == '\n' || s[0] == '\r') then SkipSpace(s[1..]) else s
  }

  function ReadValue(s: string): (r: Option<Parsed<Json>>)
    ensures r.Some? ==> |r.value.rest| < |s|
    decreases |s|, 0
  {
    if s == "" then None
    else if s[0] == '"' then
      match ReadChars(s[1..])
      case None => None
      case Some(Parsed(t, rest)) => Some(Parsed(JString(t), rest))
    else if s[0] == '[' then ReadArray(SkipSpace(s[1..]))
    else if s[0] == '{' then ReadObject(SkipSpace(s[1..]))
    else if "null" <= s then Some(Parsed(JNull, s[4..]))
    else if "true" <= s then Some(Parsed(JBool(true), s[4..]))
    else if "false" <= s then Some(Parsed(JBool(false), s[5..]))
    else ReadNumber(s)
  }

  /** An array whose opening bracket has been read. */
  function ReadArray(s: string): (r: Option<Parsed<Json>>)
    ensures r.Some? ==> |r.value.rest| < |s|
    decreases |s|, 2
  {
    if s != "" && s[0] == ']' then Some(Parsed(JArray([]), s[1..]))
    else
      match ReadItems(s)
      case None => None
      case Some(Parsed(items, rest)) => Some(Parsed(JArray(items), rest))
  }

  /** One or more values, and the bracket that ends them. */
  function ReadItems(s: string): (r: Option<Parsed<seq<Json>>>)
    ensures r.Some? ==> |r.value.rest| < |s|
    decreases |s|, 1
  {
    match ReadValue(s)
    case None => None
    case Some(Parsed(item, after)) =>
      var rest := SkipSpace(after);
      if rest == "" then None
      else if rest[0] == ']' then Some(Parsed([item], rest[1..]))
      else if rest[0] == ',' then
        match ReadItems(SkipSpace(rest[1..]))
        case None => None
        case Some(Parsed(items, end)) => Some(Parsed([item] + items, end))
      else None
  }

  /** An object whose opening brace has been read. */
  function ReadObject(s: string): (r: Option<Parsed<Json>>)
    ensures r.Some? ==> |r.value.rest| < |s|
    decreases |s|, 2
  {
    if s != "" && s[0] == '}' then Some(Parsed(JObject([]), s[1..]))
    else
      match ReadMembers(s)
      case None => None
      case Some(Parsed(members, rest)) => Some(Parsed(JObject(members), rest))
  }

  /** A name, a colon and a value. */
  function ReadMember(s: string): (r: Option<Parsed<Member>>)
    ensures r.Some? ==> |r.value.rest| < |s|
    decreases |s|, 0
  {
    if s == "" || s[0] != '"' then None
    else
      match ReadChars(s[1..])
      case None => None
      case Some(Parsed(key, after)) =>
        var colon := SkipSpace(after);
        if colon == "" || colon[0] != ':' then None
        else
          match ReadValue(SkipSpace(colon[1..]))
          case None => None
          case Some(Parsed(value, rest)) => Some(Parsed(Member(key, value), rest))
  }

  /** One or more members, and the brace that ends them. */
  function ReadMembers(s: string): (r: Option<Parsed<seq<Member>>>)
    ensures r.Some? ==> |r.value.rest| < |s|
    decreases |s|, 1
  {
    match ReadMember(s)
    case None => None
    case Some(Parsed(member, after)) =>
      var rest := SkipSpace(after);
      if rest == "" then None
      else if rest[0] == '}' then Some(Parsed([member], rest[1..]))
      else if rest[0] == ',' then
        match ReadMembers(SkipSpace(rest[1..]))
        case None => None
        case Some(Parsed(members, end)) => Some(Parsed([member] + members, end))
      else None
  }

  /** A whole text: one value, with nothing but space around it. */
  function Read(s: string): Option<Json> {
    match ReadValue(SkipSpace(s))
    case None => None
    case Some(Parsed(j, rest)) => if SkipSpace(rest) == "" then Some(j) else None
  }

  // ---------- Reading back strings ----------

  lemma HexBack(n: nat)
    requires n < 16
    ensures IsHex(HexDigit(n)) && HexValue(HexDigit(n)) == n
  {
  }

  lemma Digits16(n: nat)
    requires n < 0x10000
    ensures n / 4096 < 16 && n == (n / 4096) * 4096 + (n / 256 % 16) * 256 + (n / 16 % 16) * 16 + n % 16
  {
  }

  lemma UnitBack(n: nat, rest: string)
    requires n < 0x10000
    ensures ReadUnit(Unicode4(n) + rest) == Some(Parsed(n, rest))
  {
    Digits16(n);
    HexBack(n / 4096);
    HexBack(n / 256 % 16);
    HexBack(n / 16 % 16);
    HexBack(n % 16);
    var s := Unicode4(n) + rest;
    assert s[6..] == rest;
  }

  lemma UnicodeBack(c: char, rest: string)
    ensures var n := c as int;
            var escaped := if n < 0x10000 then Unicode4(n)
                           else Unicode4(0xD800 + (n - 0x10000) / 1024) + Unicode4(0xDC00 + (n - 0x10000) % 1024);
            ReadUnicode(escaped + rest) == Some(Parsed(c, rest))
  {
    var n := c as int;
    if n < 0x10000 {
      UnitBack(n, rest);
    } else {
      var high, low := 0xD800 + (n - 0x10000) / 1024, 0xDC00 + (n - 0x10000) % 1024;
      UnitBack(high, Unicode4(low) + rest);
      UnitBack(low, rest);
      assert (Unicode4(high) + Unicode4(low)) + rest == Unicode4(high) + (Unicode4(low) + rest);
    }
  }

  lemma PlainBack(c: char, rest: string)
    requires ' ' <= c <= '~' && c != '"' && c != '\\'
    ensures Escape(c) == [c] && ReadChar([c] + rest) == Some(Parsed(c, rest))
  {
    assert ([c] + rest)[1..] == rest;
  }

  lemma ShortBack(c: char, letter: char, rest: string)
    requires letter != 'u' && Unescaped(letter) == Some(c)
    ensures ReadChar(['\\', letter] + rest) == Some(Parsed(c, rest))
  {
    assert (['\\', letter] + rest)[2..] == rest;
  }

  lemma LongBack(c: char, rest: string)
    requires Escape(c) == if c as int < 0x10000 then Unicode4(c as int)
                          else Unicode4(0xD800 + (c as int - 0x10000) / 1024)
                               + Unicode4(0xDC00 + (c as int - 0x10000) % 1024)
    ensures ReadChar(Escape(c) + rest) == Some(Parsed(c, rest))
  {
    UnicodeBack(c, rest);
    var s := Escape(c) + rest;
    assert s[0] == '\\' && s[1] == 'u';
  }

  lemma CharBack(c: char, rest: string)
    ensures (Escape(c) + rest)[0] != '"' && ReadChar(Escape(c) + rest) == Some(Parsed(c, rest))
  {
    if ' ' <= c <= '~' && c != '"' && c != '\\' {
      PlainBack(c, rest);
    } else if |Escape(c)| == 2 {
      ShortBack(c, Escape(c)[1], rest);
      assert Escape(c) == ['\\', Escape(c)[1]];
    } else {
      LongBack(c, rest);
    }
  }

  lemma CharsStep(s: string, c: char, more: string, t: string, rest: string)
    requires s != "" && s[0] != '"' && ReadChar(s) == Some(Parsed(c, more))
    requires ReadChars(more) == Some(Parsed(t, rest))
    ensures ReadChars(s) == Some(Parsed([c] + t, rest))
  {
  }

  lemma {:induction false} CharsBack(t: string, rest: string)
    ensures ReadChars(EscapeAll(t) + (['"'] + rest)) == Some(Parsed(t, rest))
  {
    if t == [] {
      assert EscapeAll(t) + (['"'] + rest) == ['"'] + rest;
    } else {
      var more := EscapeAll(t[1..]) + (['"'] + rest);
      var s := Escape(t[0]) + more;
      CharBack(t[0], more);
      CharsBack(t[1..], rest);
      CharsStep(s, t[0], more, t[1..], rest);
      Associative(Escape(t[0]), EscapeAll(t[1..]), ['"'] + rest);
      assert EscapeAll(t) + (['"'] + rest) == s;
      assert [t[0]] + t[1..] == t;
    }
  }

  // ---------- Reading back numbers ----------

  lemma {:induction false} DecimalStart(n: nat)
    ensures n > 0 ==> Decimal(n)[0] != '0'
    ensures n < 10 ==> |Decimal(n)| == 1
  {
    if n >= 10 {
      DecimalStart(n / 10);
    }
  }

  lemma {:induction false} DecimalDenotes(n: nat)
    ensures Denoted(Decimal(n)) == n
  {
    var digits := Decimal(n);
    assert digits[|digits| - 1] == ('0' as int + n % 10) as char;
    if n >= 10 {
      DecimalDenotes(n / 10);
      assert digits[..|digits| - 1] == Decimal(n / 10);
    } else {
      assert digits[..|digits| - 1] == "";
    }
  }

  lemma {:induction false} DigitsBack(digits: string, rest: string)
    requires (forall c :: c in digits ==> IsDigit(c)) && (rest == "" || !IsDigit(rest[0]))
    ensures DigitsAtStart(digits + rest) == digits
  {
    if digits == "" {
      assert digits + rest == rest;
    } else {
      assert digits[0] in digits;
      DigitsBack(digits[1..], rest);
      assert (digits + rest)[1..] == digits[1..] + rest;
    }
  }

  /** What follows a value in a dumped text: nothing, or a character no number goes on with. */
  predicate Ends(rest: string) {
    rest == "" || rest[0] == ',' || rest[0] == ']' || rest[0] == '}'
  }

  lemma MagnitudeBack(n: nat, rest: string)
    requires Ends(rest)
    ensures ReadMagnitude(Decimal(n) + rest) == Some(Parsed(n, rest))
  {
    var digits := Decimal(n);
    DecimalStart(n);
    DecimalDenotes(n);
    DigitsBack(digits, rest);
    assert (digits + rest)[|digits|..] == rest;
    assert |digits| > 1 ==> n >= 10;
  }

  lemma NumberBack(n: int, rest: string)
    requires Ends(rest)
    ensures ReadNumber(Dumps(JInt(n)) + rest) == Some(Parsed(JInt(n), rest))
  {
    var s := Dumps(JInt(n)) + rest;
    if n < 0 {
      MagnitudeBack(-n, rest);
      assert s[1..] == Decimal(-n) + rest;
    } else {
      MagnitudeBack(n, rest);
      assert s[0] == Decimal(n)[0] && Decimal(n)[0] in Decimal(n);
    }
  }

  // ---------- Reading back values ----------

  /** A dumped value starts with no space, and an array's first item not with its end. */
  lemma DumpsStarts(j: Json, rest: string)
    ensures var s := Dumps(j) + rest;
            s != "" && SkipSpace(s) == s && s[0] != ']'
  {
    if j.JInt? && j.n >= 0 {
      assert Decimal(j.n)[0] in Decimal(j.n);
    }
  }

  lemma LiteralBack(j: Json, rest: string)
    requires j.JNull? || j.JBool?
    ensures ReadValue(Dumps(j) + rest) == Some(Parsed(j, rest))
  {
    var s := Dumps(j) + rest;
    assert s[..4] == Dumps(j)[..4] && s[|Dumps(j)|..] == rest;
    assert "null"[0] == 'n' && "true"[0] == 't' && "false"[0] == 'f';
  }

  lemma IntBack(n: int, rest: string)
    requires Ends(rest)
    ensures ReadValue(Dumps(JInt(n)) + rest) == Some(Parsed(JInt(n), rest))
  {
    NumberBack(n, rest);
    var s := Dumps(JInt(n)) + rest;
    assert n >= 0 ==> Decimal(n)[0] in Decimal(n);
    NumberIsNoLiteral(s);
  }

  lemma NumberIsNoLiteral(s: string)
    requires s != "" && (s[0] == '-' || IsDigit(s[0]))
    ensures ReadValue(s) == ReadNumber(s)
  {
    OtherStart("null", s);
    OtherStart("true", s);
    OtherStart("false", s);
    assert s[0] != '"' && s[0] != '[' && s[0] != '{';
  }

  lemma OtherStart(literal: string, s: string)
    requires literal != "" && s != "" && literal[0] != s[0]
    ensures !(literal <= s)
  {
  }

  lemma QuoteText(t: string, rest: string)
    ensures var s := Quote(t) + rest;
            s != "" && s[0] == '"' && s[1..] == EscapeAll(t) + (['"'] + rest)
  {
    Regroup(['"'], EscapeAll(t), ['"'], rest);
    assert (['"'] + (EscapeAll(t) + (['"'] + rest)))[1..] == EscapeAll(t) + (['"'] + rest);
  }

  lemma StringBack(t: string, rest: string)
    ensures ReadChars((Quote(t) + rest)[1..]) == Some(Parsed(t, rest))
  {
    CharsBack(t, rest);
    QuoteText(t, rest);
  }

  lemma ArrayStep(s: string, items: seq<Json>, rest: string)
    requires s != "" && s[0] == '[' && SkipSpace(s[1..]) == s[1..] && s[1..] != "" && s[1] != ']'
    requires ReadItems(s[1..]) == Some(Parsed(items, rest))
    ensures ReadValue(s) == Some(Parsed(JArray(items), rest))
  {
  }

  lemma ObjectStep(s: string, members: seq<Member>, rest: string)
    requires s != "" && s[0] == '{' && SkipSpace(s[1..]) == s[1..] && s[1..] != "" && s[1] != '}'
    requires ReadMembers(s[1..]) == Some(Parsed(members, rest))
    ensures ReadValue(s) == Some(Parsed(JObject(members), rest))
  {
  }

  lemma EmptyBack(j: Json, rest: string)
    requires j == JArray([]) || j == JObject([])
    ensures ReadValue(Dumps(j) + rest) == Some(Parsed(j, rest))
  {
    var s := Dumps(j) + rest;
    var inside := s[1..];
    assert inside != "" && (inside[0] == ']' || inside[0] == '}') && inside[1..] == rest;
  }

  lemma StringValueBack(t: string, rest: string)
    ensures ReadValue(Quote(t) + rest) == Some(Parsed(JString(t), rest))
  {
    StringBack(t, rest);
  }

  lemma ArrayText(items: seq<Json>, rest: string)
    ensures var s := Dumps(JArray(items)) + rest;
            s[0] == '[' && s[1..] == DumpItems(items) + ("]" + rest)
  {
  }

  lemma ObjectText(members: seq<Member>, rest: string)
    ensures var s := Dumps(JObject(members)) + rest;
            s[0] == '{' && s[1..] == DumpMembers(members) + ("}" + rest)
  {
  }

  lemma Regroup(a: string, b: string, c: string, d: string)
    ensures a + b + c + d == a + (b + (c + d))
  {
  }

  lemma ItemsText(items: seq<Json>, rest: string)
    requires |items| > 1
    ensures DumpItems(items) + rest == Dumps(items[0]) + (", " + (DumpItems(items[1..]) + rest))
    ensures [items[0]] + items[1..] == items
  {
    var first, others := Dumps(items[0]), DumpItems(items[1..]);
    assert DumpItems(items) == first + ", " + others;
    Regroup(first, ", ", others, rest);
  }

  lemma MembersText(members: seq<Member>, rest: string)
    requires |members| > 1
    ensures DumpMembers(members) + rest == DumpMember(members[0]) + (", " + (DumpMembers(members[1..]) + rest))
    ensures [members[0]] + members[1..] == members
  {
    var first, others := DumpMember(members[0]), DumpMembers(members[1..]);
    assert DumpMembers(members) == first + ", " + others;
    Regroup(first, ", ", others, rest);
  }

  lemma MemberText(m: Member, rest: string)
    ensures DumpMember(m) + rest == Quote(m.key) + (": " + (Dumps(m.value) + rest))
  {
    Regroup(Quote(m.key), ": ", Dumps(m.value), rest);
  }

  /** Whatever is dumped reads back as what it was, and leaves what follows it. */
  lemma {:induction false} ValueBack(j: Json, rest: string)
    requires Ends(rest)
    ensures ReadValue(Dumps(j) + rest) == Some(Parsed(j, rest))
    decreases j, 1
  {
    match j
    case JNull => LiteralBack(j, rest);
    case JBool(_) => LiteralBack(j, rest);
    case JInt(n) => IntBack(n, rest);
    case JString(t) => StringValueBack(t, rest);
    case JArray(items) =>
      if items == [] {
        EmptyBack(j, rest);
      } else {
        ItemsBack(items, rest);
        ItemsStart(items, "]" + rest);
        ArrayText(items, rest);
        ArrayStep(Dumps(j) + rest, items, rest);
      }
    case JObject(members) =>
      if members == [] {
        EmptyBack(j, rest);
      } else {
        MembersBack(members, rest);
        MembersStart(members, "}" + rest);
        ObjectText(members, rest);
        ObjectStep(Dumps(j) + rest, members, rest);
      }
  }

  lemma ItemsStart(items: seq<Json>, rest: string)
    requires items != []
    ensures var s := DumpItems(items) + rest;
            s != "" && SkipSpace(s) == s && s[0] != ']'
  {
    var more := if |items| == 1 then rest else ", " + (DumpItems(items[1..]) + rest);
    DumpsStarts(items[0], more);
    assert DumpItems(items) + rest == Dumps(items[0]) + more;
  }

  lemma ItemsLast(s: string, item: Json, rest: string)
    requires ReadValue(s) == Some(Parsed(item, "]" + rest))
    ensures ReadItems(s) == Some(Parsed([item], rest))
  {
    assert ("]" + rest)[1..] == rest;
  }

  lemma ItemsStep(s: string, item: Json, after: string, items: seq<Json>, rest: string)
    requires ReadValue(s) == Some(Parsed(item, ", " + after)) && SkipSpace(after) == after
    requires ReadItems(after) == Some(Parsed(items, rest))
    ensures ReadItems(s) == Some(Parsed([item] + items, rest))
  {
    CommaThen(after);
  }

  lemma {:induction false} ItemsBack(items: seq<Json>, rest: string)
    requires items != []
    ensures ReadItems(DumpItems(items) + ("]" + rest)) == Some(Parsed(items, rest))
    decreases items, 0
  {
    var first, others := items[0], items[1..];
    if |items| == 1 {
      ValueBack(first, "]" + rest);
      ItemsLast(Dumps(first) + ("]" + rest), first, rest);
      assert [first] == items;
    } else {
      var after := DumpItems(others) + ("]" + rest);
      ValueBack(first, ", " + after);
      ItemsBack(others, rest);
      ItemsStart(others, "]" + rest);
      ItemsStep(Dumps(first) + (", " + after), first, after, others, rest);
      ItemsText(items, "]" + rest);
    }
  }

  lemma CommaThen(after: string)
    requires SkipSpace(after) == after
    ensures var s := ", " + after;
            s[0] == ',' && SkipSpace(s) == s && SkipSpace(s[1..]) == after
  {
    var s := ", " + after;
    assert s[1..] == " " + after && (" " + after)[1..] == after;
  }

  function DumpMember(m: Member): string {
    Quote(m.key) + ": " + Dumps(m.value)
  }

  lemma MembersStart(members: seq<Member>, rest: string)
    requires members != []
    ensures var s := DumpMembers(members) + rest;
            s != "" && SkipSpace(s) == s && s[0] == '"'
  {
  }

  lemma MemberStep(s: string, key: string, colon: string, value: Json, rest: string)
    requires s != "" && s[0] == '"' && ReadChars(s[1..]) == Some(Parsed(key, ": " + colon))
    requires SkipSpace(colon) == colon && ReadValue(colon) == Some(Parsed(value, rest))
    ensures ReadMember(s) == Some(Parsed(Member(key, value), rest))
  {
    var after := ": " + colon;
    assert after[1..] == " " + colon && (" " + colon)[1..] == colon;
    assert SkipSpace(after) == after;
  }

  lemma MemberBack(m: Member, rest: string)
    requires ReadValue(Dumps(m.value) + rest) == Some(Parsed(m.value, rest))
    ensures ReadMember(DumpMember(m) + rest) == Some(Parsed(m, rest))
  {
    var value := Dumps(m.value) + rest;
    var s := Quote(m.key) + (": " + value);
    StringBack(m.key, ": " + value);
    DumpsStarts(m.value, rest);
    MemberStep(s, m.key, value, m.value, rest);
    MemberText(m, rest);
  }

  lemma MembersLast(s: string, m: Member, rest: string)
    requires ReadMember(s) == Some(Parsed(m, "}" + rest))
    ensures ReadMembers(s) == Some(Parsed([m], rest))
  {
    assert ("}" + rest)[1..] == rest;
  }

  lemma MembersStep(s: string, m: Member, after: string, members: seq<Member>, rest: string)
    requires ReadMember(s) == Some(Parsed(m, ", " + after)) && SkipSpace(after) == after
    requires ReadMembers(after) == Some(Parsed(members, rest))
    ensures ReadMembers(s) == Some(Parsed([m] + members, rest))
  {
    CommaThen(after);
  }

  lemma {:induction false} MembersBack(members: seq<Member>, rest: string)
    requires members != []
    ensures ReadMembers(DumpMembers(members) + ("}" + rest)) == Some(Parsed(members, rest))
    decreases members, 0
  {
    var m, others := members[0], members[1..];
    if |members| == 1 {
      ValueBack(m.value, "}" + rest);
      MemberBack(m, "}" + rest);
      MembersLast(DumpMember(m) + ("}" + rest), m, rest);
      assert [m] == members;
    } else {
      var after := DumpMembers(others) + ("}" + rest);
      ValueBack(m.value, ", " + after);
      MemberBack(m, ", " + after);
      MembersBack(others, rest);
      MembersStart(others, "}" + rest);
      MembersStep(DumpMember(m) + (", " + after), m, after, others, rest);
      MembersText(members, "}" + rest);
    }
  }

  /** Every payload reads back, from the text `json.dumps` makes of it, as itself. */
  lemma ReadsBack(j: Json)
    ensures Read(Dumps(j)) == Some(j)
  {
    ValueBack(j, "");
    DumpsStarts(j, "");
    assert Dumps(j) + "" == Dumps(j);
  }
}
