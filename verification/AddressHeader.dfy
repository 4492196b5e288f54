/** The address headers of a reply (src/mail_verdict/api/mcp_reply.py): the bare address of an
    entry, and splitting a header that lists several. `isSpace` stands for what str.strip
    removes, the blank among it. */
module AddressHeader {
  import opened Sequences

  // ---------- One address ----------

  /** Where the first match of <([^>]+)> starts, if there is one. */
  function Opening(s: string, from: nat): (r: Option<nat>)
    requires from <= |s|
    ensures match r
            case Some(i) => from <= i && i + 1 < |s| && s[i] == '<' && s[i + 1] != '>' && '>' in s[i + 1..]
            case None => true
    decreases |s| - from
  {
    if from == |s| then None
    else if s[from] == '<' && from + 1 < |s| && s[from + 1] != '>' && '>' in s[from + 1..] then Some(from)
    else Opening(s, from + 1)
  }

  function UpTo(s: string, c: char): (r: string)
    ensures c !in r
    ensures r <= s && (c in s ==> r + [c] <= s)
  {
    if s == "" || s[0] == c then "" else [s[0]] + UpTo(s[1..], c)
  }

  /** The bare address out of "Name <addr>", or the string itself. */
  function ExtractEmail(addr: string): string {
    match Opening(addr, 0)
    case None => addr
    case Some(i) => UpTo(addr[i + 1..], '>')
  }

  lemma {:induction false} NothingToExtract(s: string, from: nat)
    requires from <= |s| && '>' !in s
    ensures Opening(s, from) == None
    decreases |s| - from
  {
    if from < |s| {
      NothingToExtract(s, from + 1);
    }
  }

  /** What is extracted is a bare address: extracting again changes nothing. */
  lemma ExtractionIsBare(addr: string)
    ensures ExtractEmail(ExtractEmail(addr)) == ExtractEmail(addr)
    ensures addr != "" ==> ExtractEmail(addr) != ""
  {
    match Opening(addr, 0)
    case None =>
    case Some(i) =>
      var found := UpTo(addr[i + 1..], '>');
      NothingToExtract(found, 0);
      assert found + ">" <= addr[i + 1..];
  }

  /** `inner` is what the group of <([^>]+)> holds for a match at `i`. */
  ghost predicate MatchesAt(s: string, i: nat, inner: string) {
    && i + |inner| + 1 < |s| && s[i] == '<' && inner == s[i + 1..i + 1 + |inner|] && s[i + 1 + |inner|] == '>'
    && inner != "" && '>' !in inner
  }

  ghost predicate MatchesSomewhere(s: string, i: nat) {
    exists inner :: MatchesAt(s, i, inner)
  }

  predicate OpensAt(s: string, i: nat) {
    i + 1 < |s| && s[i] == '<' && s[i + 1] != '>' && '>' in s[i + 1..]
  }

  lemma MatchesOpen(s: string, i: nat, inner: string)
    requires MatchesAt(s, i, inner)
    ensures OpensAt(s, i)
  {
    assert inner[0] in inner && s[i + 1..][|inner|] == '>';
  }

  lemma {:induction false} OpeningIsLeftmost(s: string, from: nat, j: nat)
    requires from <= j && from <= |s| && (Opening(s, from).Some? ==> j < Opening(s, from).value)
    ensures !OpensAt(s, j)
    decreases |s| - from
  {
    if from < j && from < |s| {
      OpeningIsLeftmost(s, from + 1, j);
    }
  }

  lemma NoMatchBefore(s: string, j: nat)
    requires Opening(s, 0).Some? ==> j < Opening(s, 0).value
    ensures !MatchesSomewhere(s, j)
  {
    OpeningIsLeftmost(s, 0, j);
    forall inner ensures !MatchesAt(s, j, inner) {
      if MatchesAt(s, j, inner) {
        MatchesOpen(s, j, inner);
      }
    }
  }

  lemma GroupMatches(s: string, i: nat)
    requires OpensAt(s, i)
    ensures MatchesAt(s, i, UpTo(s[i + 1..], '>'))
  {
    var rest := s[i + 1..];
    var found := UpTo(rest, '>');
    assert (found + ['>'])[|found|] == rest[|found|];
    assert rest[..|found|] == s[i + 1..i + 1 + |found|];
  }

  /** The address is the group of the leftmost match, or the string itself where none is. */
  lemma ExtractsTheFirstMatch(addr: string)
    ensures match Opening(addr, 0)
            case Some(i) =>
              && MatchesAt(addr, i, ExtractEmail(addr))
              && forall j: nat :: j < i ==> !MatchesSomewhere(addr, j)
            case None => ExtractEmail(addr) == addr && forall j: nat :: !MatchesSomewhere(addr, j)
  {
    forall j: nat | Opening(addr, 0).Some? ==> j < Opening(addr, 0).value ensures !MatchesSomewhere(addr, j) {
      NoMatchBefore(addr, j);
    }
    if Opening(addr, 0).Some? {
      GroupMatches(addr, Opening(addr, 0).value);
    }
  }

  // ---------- Splitting a header into addresses ----------

  datatype Scan = Scan(inQuotes: bool, inAngle: bool)

  const TOP_LEVEL := Scan(false, false)

  function Advance(at: Scan, c: char): Scan {
    if c == '"' then at.(inQuotes := !at.inQuotes)
    else if c == '<' && !at.inQuotes then at.(inAngle := true)
    else if c == '>' && !at.inQuotes then at.(inAngle := false)
    else at
  }

  /** Whether the end of `s` lies in quotes or in angle brackets. */
  function ScanOf(s: string): Scan {
    if s == "" then TOP_LEVEL else Advance(ScanOf(s[..|s| - 1]), s[|s| - 1])
  }

  predicate IsCut(at: Scan, c: char) {
    (c == ',' || c == ';') && at == TOP_LEVEL
  }

  /** Where a header is cut: its separators outside quotes and brackets. */
  function Cuts(s: string): seq<nat> {
    if s == "" then []
    else Cuts(s[..|s| - 1]) + if IsCut(ScanOf(s[..|s| - 1]), s[|s| - 1]) then [|s| - 1] else []
  }

  /** The text before the first cut, between each two, and after the last. */
  function Pieces(s: string): (r: seq<string>)
    ensures |r| > 0
  {
    if s == "" then [""]
    else
      var before := Pieces(s[..|s| - 1]);
      if IsCut(ScanOf(s[..|s| - 1]), s[|s| - 1]) then before + [""]
      else Continued(before, [s[|s| - 1]])
  }

  /** The last piece goes on with `more`. */
  function Continued(pieces: seq<string>, more: string): (r: seq<string>)
    requires |pieces| > 0
    ensures |r| == |pieces|
  {
    pieces[..|pieces| - 1] + [pieces[|pieces| - 1] + more]
  }

  function StripLeft(s: string, isSpace: char -> bool): string {
    if s != "" && isSpace(s[0]) then StripLeft(s[1..], isSpace) else s
  }

  function StripRight(s: string, isSpace: char -> bool): string {
    if s != "" && isSpace(s[|s| - 1]) then StripRight(s[..|s| - 1], isSpace) else s
  }

  function Strip(s: string, isSpace: char -> bool): string {
    StripRight(StripLeft(s, isSpace), isSpace)
  }

  /** The pieces trimmed, those with nothing in them left out. */
  function Trimmed(pieces: seq<string>, isSpace: char -> bool): seq<string> {
    if pieces == [] then []
    else
      var last := Strip(pieces[|pieces| - 1], isSpace);
      Trimmed(pieces[..|pieces| - 1], isSpace) + if last == "" then [] else [last]
  }

  function Split(header: string, isSpace: char -> bool): seq<string> {
    Trimmed(Pieces(header), isSpace)
  }

  method SplitAddressHeader(header: Option<string>, isSpace: char -> bool) returns (result: seq<string>)
    ensures result == if header.None? then [] else Split(header.value, isSpace)
  {
    result := [];
    if header.None? || header.value == "" {
      return;
    }
    var s := header.value;
    var entries: seq<string>, current: string := [], "";
    var inQuotes, inAngle := false, false;
    for i := 0 to |s|
      invariant ScanOf(s[..i]) == Scan(inQuotes, inAngle)
      invariant Pieces(s[..i]) == entries + [current]
    {
      assert s[..i + 1][..i] == s[..i];
      if s[i] == '"' {
        inQuotes := !inQuotes;
      } else if s[i] == '<' && !inQuotes {
        inAngle := true;
      } else if s[i] == '>' && !inQuotes {
        inAngle := false;
      } else if (s[i] == ',' || s[i] == ';') && !inQuotes && !inAngle {
        entries := entries + [current];
        current := "";
        continue;
      }
      current := current + [s[i]];
    }
    assert s[..|s|] == s;
    entries := entries + [current];
    for i := 0 to |entries|
      invariant result == Trimmed(entries[..i], isSpace)
    {
      assert entries[..i + 1][..i] == entries[..i];
      var entry := Strip(entries[i], isSpace);
      if entry != "" {
        result := result + [entry];
      }
    }
    assert entries[..|entries|] == entries;
  }

  // ---------- No cut inside quotes or brackets ----------

  function PieceStart(cuts: seq<nat>, i: nat): nat
    requires i <= |cuts|
  {
    if i == 0 then 0 else cuts[i - 1] + 1
  }

  function PieceEnd(s: string, cuts: seq<nat>, i: nat): nat {
    if i < |cuts| then cuts[i] else |s|
  }

  lemma CutsBelow(s: string)
    ensures forall k :: k in Cuts(s) ==> k < |s|
  {
  }

  lemma {:induction false} CutsAreTopLevel(s: string)
    ensures forall i, j :: 0 <= i < j < |Cuts(s)| ==> Cuts(s)[i] < Cuts(s)[j]
    ensures forall k: nat :: k in Cuts(s) <==> k < |s| && (s[k] == ',' || s[k] == ';') && ScanOf(s[..k]) == TOP_LEVEL
  {
    if s != "" {
      var before := s[..|s| - 1];
      CutsAreTopLevel(before);
      assert forall k :: 0 <= k < |before| ==> before[..k] == s[..k] && before[k] == s[k];
      CutsBelow(before);
      assert forall i :: 0 <= i < |Cuts(before)| ==> Cuts(before)[i] in Cuts(before);
    }
  }

  /** Each piece is the text between two neighbouring cuts. */
  ghost predicate Between(s: string, cuts: seq<nat>, pieces: seq<string>) {
    && |pieces| == |cuts| + 1
    && forall i :: 0 <= i <= |cuts| ==>
         && PieceStart(cuts, i) <= PieceEnd(s, cuts, i) <= |s|
         && pieces[i] == s[PieceStart(cuts, i)..PieceEnd(s, cuts, i)]
  }

  lemma CutStep(s: string, c: char, cuts: seq<nat>, pieces: seq<string>)
    requires Between(s, cuts, pieces)
    ensures Between(s + [c], cuts + [|s|], pieces + [""])
  {
    var more := cuts + [|s|];
    forall i | 0 <= i <= |cuts|
      ensures PieceStart(more, i) == PieceStart(cuts, i) && PieceEnd(s + [c], more, i) == PieceEnd(s, cuts, i)
    {
    }
    forall i | 0 <= i <= |cuts|
      ensures (pieces + [""])[i] == (s + [c])[PieceStart(cuts, i)..PieceEnd(s, cuts, i)]
    {
    }
  }

  lemma GoOnStep(s: string, c: char, cuts: seq<nat>, pieces: seq<string>)
    requires Between(s, cuts, pieces)
    ensures Between(s + [c], cuts, Continued(pieces, [c]))
  {
    forall i | 0 <= i < |cuts|
      ensures Continued(pieces, [c])[i] == (s + [c])[PieceStart(cuts, i)..PieceEnd(s + [c], cuts, i)]
    {
      assert PieceEnd(s + [c], cuts, i) == PieceEnd(s, cuts, i);
    }
  }

  lemma {:induction false} PiecesLieBetweenCuts(s: string)
    ensures Between(s, Cuts(s), Pieces(s))
  {
    if s != "" {
      var before, c := s[..|s| - 1], s[|s| - 1];
      assert s == before + [c];
      PiecesLieBetweenCuts(before);
      if IsCut(ScanOf(before), c) {
        CutStep(before, c, Cuts(before), Pieces(before));
      } else {
        GoOnStep(before, c, Cuts(before), Pieces(before));
        assert Cuts(before) + [] == Cuts(before);
      }
    }
  }

  /** Being in quotes is having passed an odd number of them. */
  lemma {:induction false} QuotesToggle(s: string)
    ensures ScanOf(s).inQuotes <==> multiset(s)['"'] % 2 == 1
  {
    if s != "" {
      QuotesToggle(s[..|s| - 1]);
      assert s == s[..|s| - 1] + [s[|s| - 1]];
    }
  }

  /** A header is cut at exactly its separators outside quotes and angle brackets, each with an even
      number of quotes before it, and what is returned is the text between them, trimmed. */
  lemma SplitCutsOnlyAtTopLevel(s: string, isSpace: char -> bool)
    ensures forall k: nat :: k in Cuts(s) <==> k < |s| && (s[k] == ',' || s[k] == ';') && ScanOf(s[..k]) == TOP_LEVEL
    ensures forall i, j :: 0 <= i < j < |Cuts(s)| ==> Cuts(s)[i] < Cuts(s)[j]
    ensures forall k :: k in Cuts(s) ==> multiset(s[..k])['"'] % 2 == 0
    ensures exists pieces :: Between(s, Cuts(s), pieces) && Split(s, isSpace) == Trimmed(pieces, isSpace)
  {
    CutsAreTopLevel(s);
    forall k | k in Cuts(s) ensures multiset(s[..k])['"'] % 2 == 0 {
      QuotesToggle(s[..k]);
    }
    PiecesLieBetweenCuts(s);
  }

  // ---------- Splitting undoes joining ----------

  function Join(entries: seq<string>): string {
    if entries == [] then ""
    else if |entries| == 1 then entries[0]
    else Join(entries[..|entries| - 1]) + ", " + entries[|entries| - 1]
  }

  /** Trimmed, not empty, its quotes and brackets closed, with no separator outside them. */
  ghost predicate WholeEntry(e: string, isSpace: char -> bool) {
    e != "" && Strip(e, isSpace) == e && ScanOf(e) == TOP_LEVEL && Cuts(e) == []
  }

  lemma OneMoreChar(s: string, c: char)
    ensures ScanOf(s + [c]) == Advance(ScanOf(s), c)
    ensures Cuts(s + [c]) == Cuts(s) + if IsCut(ScanOf(s), c) then [|s|] else []
    ensures Pieces(s + [c]) == if IsCut(ScanOf(s), c) then Pieces(s) + [""] else Continued(Pieces(s), [c])
  {
    assert (s + [c])[..|s|] == s;
  }

  lemma ContinuedTwice(pieces: seq<string>, more: string, c: char)
    requires |pieces| > 0
    ensures Continued(Continued(pieces, more), [c]) == Continued(pieces, more + [c])
  {
    assert (pieces[|pieces| - 1] + more) + [c] == pieces[|pieces| - 1] + (more + [c]);
  }

  lemma GoOnByOne(a: string, before: string, c: char)
    requires ScanOf(a + before) == ScanOf(before) && Pieces(a + before) == Continued(Pieces(a), before)
    requires !IsCut(ScanOf(before), c)
    ensures ScanOf(a + (before + [c])) == ScanOf(before + [c])
    ensures Pieces(a + (before + [c])) == Continued(Pieces(a), before + [c])
  {
    assert a + (before + [c]) == (a + before) + [c];
    OneMoreChar(before, c);
    OneMoreChar(a + before, c);
    ContinuedTwice(Pieces(a), before, c);
  }

  lemma GoOnByNothing(a: string)
    ensures ScanOf(a + "") == ScanOf(a) && Pieces(a + "") == Continued(Pieces(a), "")
  {
    assert a + "" == a;
    assert Pieces(a)[|Pieces(a)| - 1] + "" == Pieces(a)[|Pieces(a)| - 1];
  }

  lemma NoCutsBefore(before: string, c: char)
    requires Cuts(before + [c]) == []
    ensures Cuts(before) == [] && !IsCut(ScanOf(before), c)
  {
    OneMoreChar(before, c);
  }

  /** From a place outside quotes and brackets, what follows is scanned and cut as by itself. */
  lemma {:induction false} ScanOnFromTopLevel(a: string, b: string)
    requires ScanOf(a) == TOP_LEVEL && Cuts(b) == []
    ensures ScanOf(a + b) == ScanOf(b)
    ensures Pieces(a + b) == Continued(Pieces(a), b)
  {
    if b == "" {
      GoOnByNothing(a);
    } else {
      var before, c := b[..|b| - 1], b[|b| - 1];
      assert b == before + [c];
      NoCutsBefore(before, c);
      ScanOnFromTopLevel(a, before);
      GoOnByOne(a, before, c);
    }
  }

  /** What joined entries are cut into: each entry, all but the first with a blank before it. */
  ghost function JoinedPieces(entries: seq<string>): seq<string> {
    if entries == [] then []
    else JoinedPieces(entries[..|entries| - 1])
         + [if |entries| == 1 then entries[0] else " " + entries[|entries| - 1]]
  }

  lemma ContinueLast(pieces: seq<string>, last: string, more: string)
    ensures Continued(pieces + [last], more) == pieces + [last + more]
  {
  }

  lemma CutOff(a: string, e: string)
    requires ScanOf(a) == TOP_LEVEL && Cuts(e) == [] && ScanOf(e) == TOP_LEVEL
    ensures ScanOf(a + ", " + e) == TOP_LEVEL && Pieces(a + ", " + e) == Pieces(a) + [" " + e]
  {
    OneMoreChar(a, ',');
    OneMoreChar(a + [','], ' ');
    assert a + ", " == a + [','] + [' '];
    ContinueLast(Pieces(a), "", " ");
    assert "" + " " == " ";
    ScanOnFromTopLevel(a + ", ", e);
    ContinueLast(Pieces(a), " ", e);
  }

  lemma {:induction false} PiecesOfJoin(entries: seq<string>, isSpace: char -> bool)
    requires entries != [] && forall e :: e in entries ==> WholeEntry(e, isSpace)
    ensures ScanOf(Join(entries)) == TOP_LEVEL && Pieces(Join(entries)) == JoinedPieces(entries)
  {
    var before, last := entries[..|entries| - 1], entries[|entries| - 1];
    assert last in entries && WholeEntry(last, isSpace);
    if |entries| == 1 {
      ScanOnFromTopLevel("", last);
      assert "" + last == last;
      assert before == [];
    } else {
      PiecesOfJoin(before, isSpace);
      CutOff(Join(before), last);
    }
  }

  lemma TrimOneMore(pieces: seq<string>, piece: string, isSpace: char -> bool)
    ensures Trimmed(pieces + [piece], isSpace)
            == Trimmed(pieces, isSpace) + if Strip(piece, isSpace) == "" then [] else [Strip(piece, isSpace)]
  {
    assert (pieces + [piece])[..|pieces|] == pieces;
  }

  lemma BlankIsStripped(e: string, isSpace: char -> bool)
    requires isSpace(' ')
    ensures Strip(" " + e, isSpace) == Strip(e, isSpace)
  {
    assert (" " + e)[1..] == e;
  }

  lemma {:induction false} TrimJoinedPieces(entries: seq<string>, isSpace: char -> bool)
    requires isSpace(' ') && forall e :: e in entries ==> WholeEntry(e, isSpace)
    ensures Trimmed(JoinedPieces(entries), isSpace) == entries
  {
    if entries != [] {
      var before, last := entries[..|entries| - 1], entries[|entries| - 1];
      assert last in entries && WholeEntry(last, isSpace);
      var piece := if |entries| == 1 then last else " " + last;
      BlankIsStripped(last, isSpace);
      assert Strip(piece, isSpace) == last;
      TrimJoinedPieces(before, isSpace);
      TrimOneMore(JoinedPieces(before), piece, isSpace);
      assert JoinedPieces(entries) == JoinedPieces(before) + [piece];
    }
  }

  /** Trimming takes spaces from both ends, all there are, and nothing else. */
  lemma StripIs(s: string, isSpace: char -> bool) returns (left: string, right: string)
    ensures s == left + Strip(s, isSpace) + right
    ensures forall c :: c in left + right ==> isSpace(c)
    ensures var r := Strip(s, isSpace); r != "" ==> !isSpace(r[0]) && !isSpace(r[|r| - 1])
  {
    left := StripLeftIs(s, isSpace);
    right := StripRightIs(StripLeft(s, isSpace), isSpace);
  }

  lemma {:induction false} StripLeftIs(s: string, isSpace: char -> bool) returns (left: string)
    ensures s == left + StripLeft(s, isSpace) && forall c :: c in left ==> isSpace(c)
    ensures var r := StripLeft(s, isSpace); r != "" ==> !isSpace(r[0])
  {
    left := "";
    if s != "" && isSpace(s[0]) {
      var rest := StripLeftIs(s[1..], isSpace);
      left := [s[0]] + rest;
    }
  }

  lemma {:induction false} StripRightIs(s: string, isSpace: char -> bool) returns (right: string)
    ensures s == StripRight(s, isSpace) + right && forall c :: c in right ==> isSpace(c)
    ensures var r := StripRight(s, isSpace); r != "" ==> r[0] == s[0] && !isSpace(r[|r| - 1])
  {
    right := "";
    if s != "" && isSpace(s[|s| - 1]) {
      var rest := StripRightIs(s[..|s| - 1], isSpace);
      right := rest + [s[|s| - 1]];
    }
  }

  /** Joining whole entries with ", " and splitting again gives back the same list. */
  lemma SplitUndoesJoin(entries: seq<string>, isSpace: char -> bool)
    requires isSpace(' ') && forall e :: e in entries ==> WholeEntry(e, isSpace)
    ensures Split(Join(entries), isSpace) == entries
  {
    if entries == [] {
      assert Trimmed([""], isSpace) == [];
    } else {
      PiecesOfJoin(entries, isSpace);
      TrimJoinedPieces(entries, isSpace);
    }
  }
}
