/** Which mailboxes of RFC 5322 the address splitter (src/mail_verdict/api/mcp_reply.py) takes as one
    entry: it toggles at every double quote, and knows no quoted pairs. */
module Mailboxes {
  import opened Sequences
  import opened AddressHeader

  /** The content of a quoted string in the sense of section 3.2.4 of RFC 5322: a quote or a
      backslash only as the second half of a quoted pair. */
  predicate QuotedContent(q: string) {
    q == "" ||
    (if q[0] == '\\' then |q| >= 2 && QuotedContent(q[2..]) else q[0] != '"' && QuotedContent(q[1..]))
  }

  function Quotes(s: string): nat {
    multiset(s)['"']
  }

  /** A mailbox of section 3.4 of RFC 5322 with a quoted display name. */
  function Mailbox(name: string, addr: string): string {
    "\"" + name + "\" <" + addr + ">"
  }

  predicate IsSeparator(c: char) {
    c == ',' || c == ';'
  }

  /** An even number of quotes before each separator. */
  ghost predicate SeparatorsPair(name: string) {
    forall k :: 0 <= k < |name| && IsSeparator(name[k]) ==> Quotes(name[..k]) % 2 == 0
  }

  lemma ScanOneMore(s: string, c: char)
    ensures ScanOf(s + [c]) == Advance(ScanOf(s), c)
    ensures Cuts(s + [c]) == Cuts(s) + if IsCut(ScanOf(s), c) then [|s|] else []
  {
    OneMoreChar(s, c);
  }

  lemma SeparatorsOneMore(name: string, c: char)
    ensures SeparatorsPair(name + [c]) <==> SeparatorsPair(name) && (IsSeparator(c) ==> Quotes(name) % 2 == 0)
  {
    var more := name + [c];
    assert forall k :: 0 <= k < |name| ==> more[k] == name[k] && more[..k] == name[..k];
    assert more[|name|] == c && more[..|name|] == name;
  }

  lemma QuotesOneMore(name: string, c: char)
    ensures Quotes(name + [c]) == Quotes(name) + if c == '"' then 1 else 0
  {
  }

  predicate NoAngles(s: string) {
    '<' !in s && '>' !in s
  }

  /** Brackets and quotes in a name do not meet. */
  predicate OneKind(name: string) {
    NoAngles(name) || '"' !in name
  }

  lemma PrefixIsOneKind(before: string, c: char)
    requires OneKind(before + [c])
    ensures OneKind(before) && ((c != '<' && c != '>') || (c != '"' && Quotes(before) == 0))
  {
    assert c in before + [c] && forall x :: x in before ==> x in before + [c];
    assert '"' !in before ==> Quotes(before) == 0;
  }

  /** The scanner, having read the quote that opens a name, has gone on through the name. */
  ghost predicate ReadsName(open: string, name: string) {
    && ScanOf(open + name) == Scan(Quotes(name) % 2 == 0, false)
    && (Cuts(open + name) == [] <==> SeparatorsPair(name))
  }

  lemma ReadsOneMore(read: string, before: string, c: char)
    requires ScanOf(read) == Scan(Quotes(before) % 2 == 0, false)
    requires Cuts(read) == [] <==> SeparatorsPair(before)
    requires (c != '<' && c != '>') || (c != '"' && Quotes(before) == 0)
    ensures ScanOf(read + [c]) == Scan(Quotes(before + [c]) % 2 == 0, false)
    ensures Cuts(read + [c]) == [] <==> SeparatorsPair(before + [c])
  {
    QuotesOneMore(before, c);
    ScanOneMore(read, c);
    SeparatorsOneMore(before, c);
  }

  lemma NameGoesOn(open: string, before: string, c: char)
    requires ReadsName(open, before) && OneKind(before + [c])
    ensures ReadsName(open, before + [c])
  {
    PrefixIsOneKind(before, c);
    ReadsOneMore(open + before, before, c);
    Associative(open, before, [c]);
  }

  lemma ReadsNothing(open: string, name: string)
    requires ScanOf(open) == Scan(true, false) && Cuts(open) == [] && |name| == 0
    ensures ReadsName(open, name)
  {
    assert open + name == open;
    assert Quotes(name) == 0;
  }

  lemma {:induction false} ScanOfName(open: string, name: string)
    requires ScanOf(open) == Scan(true, false) && Cuts(open) == [] && OneKind(name)
    ensures ReadsName(open, name)
  {
    if |name| == 0 {
      ReadsNothing(open, name);
    } else {
      var before, c := name[..|name| - 1], name[|name| - 1];
      assert name == before + [c];
      PrefixIsOneKind(before, c);
      ScanOfName(open, before);
      NameGoesOn(open, before, c);
    }
  }

  /** In angle brackets, what holds no quote and no bracket changes nothing and is not cut. */
  lemma {:induction false} ScanOfAddress(a: string, addr: string)
    requires ScanOf(a) == Scan(false, true) && '"' !in addr && NoAngles(addr)
    ensures ScanOf(a + addr) == ScanOf(a) && Cuts(a + addr) == Cuts(a)
  {
    if addr == "" {
      assert a + addr == a;
    } else {
      var before, c := addr[..|addr| - 1], addr[|addr| - 1];
      assert addr == before + [c] && c in addr;
      ScanOfAddress(a, before);
      ScanOneMore(a + before, c);
      assert a + addr == (a + before) + [c];
    }
  }

  lemma {:induction false} ScanInQuotes(a: string, more: string)
    requires ScanOf(a).inQuotes && '"' !in more
    ensures ScanOf(a + more) == ScanOf(a)
  {
    if more == "" {
      assert a + more == a;
    } else {
      var before, c := more[..|more| - 1], more[|more| - 1];
      assert more == before + [c] && c in more;
      ScanInQuotes(a, before);
      ScanOneMore(a + before, c);
      assert a + more == (a + before) + [c];
    }
  }

  lemma {:induction false} CutsOnlyGrow(a: string, more: string)
    ensures Cuts(a) != [] ==> Cuts(a + more) != []
  {
    if more == "" {
      assert a + more == a;
    } else {
      var before, c := more[..|more| - 1], more[|more| - 1];
      CutsOnlyGrow(a, before);
      ScanOneMore(a + before, c);
      assert a + more == (a + before) + [c];
    }
  }

  lemma OpensAngle(a: string)
    requires ScanOf(a) == TOP_LEVEL
    ensures ScanOf(a + " <") == Scan(false, true) && Cuts(a + " <") == Cuts(a)
  {
    ScanOneMore(a, ' ');
    ScanOneMore(a + [' '], '<');
    assert a + " <" == (a + [' ']) + ['<'];
  }

  /** The address of a mailbox, once the end quote of its name has been read. */
  lemma ScanOfRest(a: string, addr: string)
    requires ScanOf(a) == TOP_LEVEL && '"' !in addr && NoAngles(addr)
    ensures ScanOf(((a + " <") + addr) + ['>']) == TOP_LEVEL && Cuts(((a + " <") + addr) + ['>']) == Cuts(a)
  {
    OpensAngle(a);
    ScanOfAddress(a + " <", addr);
    ScanOneMore((a + " <") + addr, '>');
  }

  /** Everything between the name and the end of the mailbox. */
  lemma NotWholeInQuotes(a: string, addr: string)
    requires ScanOf(a).inQuotes && '"' !in addr
    ensures ScanOf(((a + " <") + addr) + ['>']) != TOP_LEVEL
  {
    ScanInQuotes(a, " <");
    ScanInQuotes(a + " <", addr);
    ScanInQuotes((a + " <") + addr, ['>']);
  }

  lemma OpensQuotes()
    ensures ScanOf("\"") == Scan(true, false) && Cuts("\"") == []
  {
    ScanOneMore("", '"');
    assert "" + ['"'] == "\"";
  }

  lemma CutsStay(a: string, addr: string)
    requires Cuts(a) != []
    ensures Cuts(((a + " <") + addr) + ['>']) != []
  {
    CutsOnlyGrow(a, " <");
    CutsOnlyGrow(a + " <", addr);
    CutsOnlyGrow((a + " <") + addr, ['>']);
  }

  lemma ScanOfMailbox(name: string, addr: string)
    requires OneKind(name) && '"' !in addr && NoAngles(addr)
    ensures ScanOf(Mailbox(name, addr)) == TOP_LEVEL && Cuts(Mailbox(name, addr)) == [] <==>
            Quotes(name) % 2 == 0 && SeparatorsPair(name)
    ensures !SeparatorsPair(name) ==> Cuts(Mailbox(name, addr)) != []
  {
    OpensQuotes();
    ScanOfName("\"", name);
    var a := ("\"" + name) + ['"'];
    ScanOneMore("\"" + name, '"');
    assert Mailbox(name, addr) == ((a + " <") + addr) + ['>'];
    if Quotes(name) % 2 == 0 {
      ScanOfRest(a, addr);
    } else {
      NotWholeInQuotes(a, addr);
    }
    if !SeparatorsPair(name) {
      CutsStay(a, addr);
    }
  }

  lemma TrimmedAlready(e: string, isSpace: char -> bool)
    requires e != "" && !isSpace(e[0]) && !isSpace(e[|e| - 1])
    ensures Strip(e, isSpace) == e
  {
  }

  /** A mailbox whose display name is a quoted string is one whole entry to the scanner exactly when
      the escaped quotes of the name come in pairs with no separator between the two of a pair. (If
      it has escaped quotes, let it have no angle brackets.) */
  lemma QuotedMailboxIsWholeIff(name: string, addr: string, isSpace: char -> bool)
    requires QuotedContent(name) && OneKind(name) && '"' !in addr && NoAngles(addr)
    requires !isSpace('"') && !isSpace('>')
    ensures WholeEntry(Mailbox(name, addr), isSpace) <==> Quotes(name) % 2 == 0 && SeparatorsPair(name)
  {
    ScanOfMailbox(name, addr);
    var e := Mailbox(name, addr);
    assert e[0] == '"' && e[|e| - 1] == '>';
    TrimmedAlready(e, isSpace);
  }

  lemma NoQuotesPair(name: string)
    requires '"' !in name
    ensures Quotes(name) == 0 && SeparatorsPair(name)
  {
    forall k | 0 <= k < |name| ensures Quotes(name[..k]) == 0 {
      assert '"' !in name[..k];
    }
  }

  /** So it is whenever the name has no escaped quote, whatever else it holds. */
  lemma UnescapedMailboxIsWhole(name: string, addr: string, isSpace: char -> bool)
    requires QuotedContent(name) && '"' !in name && '"' !in addr && NoAngles(addr)
    requires !isSpace('"') && !isSpace('>')
    ensures WholeEntry(Mailbox(name, addr), isSpace)
  {
    NoQuotesPair(name);
    QuotedMailboxIsWholeIff(name, addr, isSpace);
  }

  const ESCAPED_NAME := ['a', '\\', '"', ',', ' ', 'b']

  /** The name `a\", b`, which the standard allows, makes a mailbox that is cut. */
  lemma EscapedQuoteCutsAMailbox(addr: string)
    requires '"' !in addr && NoAngles(addr)
    ensures QuotedContent(ESCAPED_NAME) && Cuts(Mailbox(ESCAPED_NAME, addr)) != []
  {
    assert QuotedContent(ESCAPED_NAME[1..][2..][2..]);
    assert ESCAPED_NAME[..3] == ['a', '\\', '"'] && IsSeparator(ESCAPED_NAME[3]);
    assert Quotes(['a', '\\', '"']) == 1;
    ScanOfMailbox(ESCAPED_NAME, addr);
  }
}
