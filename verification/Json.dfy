/** A JSON payload and `json.dumps` with its default arguments, as `_format_sse` calls it. */
module Json {
  import opened EventIds

  datatype Json =
    | JNull
    | JBool(b: bool)
    | JInt(n: int)
    | JString(s: string)
    | JArray(items: seq<Json>)
    | JObject(members: seq<Member>)

  datatype Member = Member(key: string, value: Json)

  /** Printable ASCII only: in particular no line break and no NUL. */
  predicate Printable(s: string) {
    forall c :: c in s ==> ' ' <= c <= '~'
  }

  function HexDigit(n: nat): (c: char)
    requires n < 16
    ensures IsHexDigit(c)
  {
    if n < 10 then ('0' as int + n) as char else ('a' as int + (n - 10)) as char
  }

  function Unicode4(n: nat): string
    requires n < 0x10000
  {
    ['\\', 'u', HexDigit(n / 4096), HexDigit(n / 256 % 16), HexDigit(n / 16 % 16), HexDigit(n % 16)]
  }

  function Escape(c: char): string {
    var n := c as int;
    if c == '"' then ['\\', '"']
    else if c == '\\' then ['\\', '\\']
    else if ' ' <= c <= '~' then [c]
    else if c == '\n' then ['\\', 'n']
    else if c == '\r' then ['\\', 'r']
    else if c == '\t' then ['\\', 't']
    else if n == 12 then ['\\', 'f']
    else if n == 8 then ['\\', 'b']
    else if n < 0x10000 then Unicode4(n)
    else Unicode4(0xD800 + (n - 0x10000) / 1024) + Unicode4(0xDC00 + (n - 0x10000) % 1024)
  }

  function EscapeAll(s: string): string {
    if s == [] then [] else Escape(s[0]) + EscapeAll(s[1..])
  }

  function Quote(s: string): string {
    ['"'] + EscapeAll(s) + ['"']
  }

  function Dumps(j: Json): string
    decreases j, 1
  {
    match j
    case JNull => "null"
    case JBool(b) => if b then "true" else "false"
    case JInt(n) => if n < 0 then "-" + Decimal(-n) else Decimal(n)
    case JString(s) => Quote(s)
    case JArray(items) => "[" + DumpItems(items) + "]"
    case JObject(members) => "{" + DumpMembers(members) + "}"
  }

  function DumpItems(items: seq<Json>): string
    decreases items, 0
  {
    if items == [] then ""
    else if |items| == 1 then Dumps(items[0])
    else Dumps(items[0]) + ", " + DumpItems(items[1..])
  }

  function DumpMembers(members: seq<Member>): string
    decreases members, 0
  {
    if members == [] then ""
    else
      var head := Quote(members[0].key) + ": " + Dumps(members[0].value);
      if |members| == 1 then head else head + ", " + DumpMembers(members[1..])
  }

  lemma EscapePrintable(c: char)
    ensures Printable(Escape(c))
  {
    if c as int >= 0x10000 {
      Unicode4Printable(0xD800 + (c as int - 0x10000) / 1024);
      Unicode4Printable(0xDC00 + (c as int - 0x10000) % 1024);
    } else {
      Unicode4Printable(c as int);
    }
  }

  lemma Unicode4Printable(n: nat)
    requires n < 0x10000
    ensures Printable(Unicode4(n))
  {
  }

  lemma {:induction false} QuotePrintable(s: string)
    ensures Printable(EscapeAll(s)) && Printable(Quote(s))
  {
    if s != [] {
      EscapePrintable(s[0]);
      QuotePrintable(s[1..]);
    }
  }

  /** A dumped payload is one nonempty line of printable ASCII, whatever text it carries. */
  lemma {:induction false} DumpsPrintable(j: Json)
    ensures Printable(Dumps(j)) && Dumps(j) != []
    decreases j, 1
  {
    match j
    case JNull =>
    case JBool(_) =>
    case JInt(n) =>
      assert forall c :: c in Decimal(if n < 0 then -n else n) ==> IsDigit(c);
    case JString(s) => QuotePrintable(s);
    case JArray(items) => DumpItemsPrintable(items);
    case JObject(members) => DumpMembersPrintable(members);
  }

  lemma {:induction false} DumpItemsPrintable(items: seq<Json>)
    ensures Printable(DumpItems(items))
    decreases items, 0
  {
    if items != [] {
      DumpsPrintable(items[0]);
      DumpItemsPrintable(items[1..]);
    }
  }

  lemma {:induction false} DumpMembersPrintable(members: seq<Member>)
    ensures Printable(DumpMembers(members))
    decreases members, 0
  {
    if members != [] {
      QuotePrintable(members[0].key);
      DumpsPrintable(members[0].value);
      DumpMembersPrintable(members[1..]);
    }
  }
}
