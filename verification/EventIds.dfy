/** The `id:` values a ring hands out and reads back (src/mail_verdict/api/event_ring.py). */
module EventIds {
  import opened Sequences

  predicate IsDigit(c: char) {
    '0' <= c <= '9'
  }

  predicate IsHexDigit(c: char) {
    IsDigit(c) || 'a' <= c <= 'f'
  }

  /** `secrets.token_hex(4)`: eight lower-case hex digits. */
  predicate IsEpoch(s: string) {
    |s| == 8 && forall c :: c in s ==> IsHexDigit(c)
  }

  predicate AllDigits(s: string) {
    s != [] && forall c :: c in s ==> IsDigit(c)
  }

  /** `str(n)` */
  function Decimal(n: nat): (s: string)
    ensures AllDigits(s)
  {
    var last := [('0' as int + n % 10) as char];
    if n < 10 then last else Decimal(n / 10) + last
  }

  /** `int(s)` of a run of digits. */
  function Number(s: string): nat
    requires forall c :: c in s ==> IsDigit(c)
  {
    if s == [] then 0
    else
      var last := s[|s| - 1];
      assert last in s && IsDigit(last);
      assert last as int >= '0' as int;
      Number(s[..|s| - 1]) * 10 + (last as int - '0' as int)
  }

  function IndexOf(s: string, c: char): (i: nat)
    ensures i <= |s|
    ensures c !in s[..i]
    ensures i < |s| ==> s[i] == c
  {
    if s == [] || s[0] == c then 0 else 1 + IndexOf(s[1..], c)
  }

  function FormatEventId(epoch: string, n: nat): string {
    epoch + "-" + Decimal(n)
  }

  /** Split at the first '-'; the id counts only under this ring's own epoch. */
  function ParseEventId(epoch: string, raw: string): Option<nat> {
    var i := IndexOf(raw, '-');
    if i == |raw| || raw[..i] != epoch || !AllDigits(raw[i + 1..]) then None
    else Some(Number(raw[i + 1..]))
  }

  lemma {:induction false} DecimalRoundTrip(n: nat)
    ensures Number(Decimal(n)) == n
  {
    if n >= 10 {
      DecimalRoundTrip(n / 10);
      assert Decimal(n)[..|Decimal(n)| - 1] == Decimal(n / 10);
    }
  }

  lemma {:induction false} IndexOfConcat(a: string, c: char, b: string)
    requires c !in a
    ensures IndexOf(a + [c] + b, c) == |a|
  {
    if a != [] {
      IndexOfConcat(a[1..], c, b);
      assert (a + [c] + b)[1..] == a[1..] + [c] + b;
    }
  }

  /** An id read back by the ring that issued it is the same number; any other ring rejects it. */
  lemma EventIdRoundTrip(issuer: string, reader: string, n: nat)
    requires IsEpoch(issuer) && IsEpoch(reader)
    ensures ParseEventId(reader, FormatEventId(issuer, n)) == if reader == issuer then Some(n) else None
  {
    var raw := FormatEventId(issuer, n);
    IndexOfConcat(issuer, '-', Decimal(n));
    assert raw == issuer + ['-'] + Decimal(n);
    assert raw[..|issuer|] == issuer && raw[|issuer| + 1..] == Decimal(n);
    DecimalRoundTrip(n);
  }

  /** Nothing but this ring's epoch, a dash and digits is ever accepted. */
  lemma ParsedIdsCarryTheEpoch(epoch: string, raw: string)
    ensures ParseEventId(epoch, raw).Some? <==>
            exists digits :: AllDigits(digits) && '-' !in epoch && raw == epoch + "-" + digits
  {
    var i := IndexOf(raw, '-');
    if ParseEventId(epoch, raw).Some? {
      assert raw == epoch + "-" + raw[i + 1..];
    }
    if digits :| AllDigits(digits) && '-' !in epoch && raw == epoch + "-" + digits {
      IndexOfConcat(epoch, '-', digits);
      assert raw == epoch + ['-'] + digits;
      assert raw[..i] == epoch && raw[i + 1..] == digits;
    }
  }
}
