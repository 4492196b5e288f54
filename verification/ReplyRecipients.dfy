/** Who a reply goes to (src/mail_verdict/api/mcp_reply.py). `lower` stands for str.lower, over
    any character set. */
module ReplyRecipients {
  import opened Sequences
  import opened AddressHeader

  function Keys(addrs: seq<string>, lower: string -> string): set<string> {
    set a | a in addrs && a != "" :: lower(a)
  }

  function Emails(addrs: seq<string>): (r: seq<string>)
    ensures |r| == |addrs| && forall i :: 0 <= i < |r| ==> r[i] == ExtractEmail(addrs[i])
  {
    if addrs == [] then [] else [ExtractEmail(addrs[0])] + Emails(addrs[1..])
  }

  ghost predicate OnePerKey(addrs: seq<string>, lower: string -> string) {
    forall i, j :: 0 <= i < j < |addrs| ==> lower(addrs[i]) != lower(addrs[j])
  }

  // ---------- Deduplication ----------

  /** The first address of each key not excluded, in order. */
  function Deduped(addrs: seq<string>, exclude: set<string>, lower: string -> string): seq<string> {
    if addrs == [] then []
    else
      var before, last := Deduped(addrs[..|addrs| - 1], exclude, lower), addrs[|addrs| - 1];
      if last == "" || lower(last) in Keys(before, lower) || lower(last) in exclude then before else before + [last]
  }

  method DedupeExcluding(addrs: seq<string>, exclude: set<string>, lower: string -> string)
    returns (result: seq<string>)
    ensures result == Deduped(addrs, exclude, lower)
  {
    var seen: set<string> := {};
    result := [];
    for i := 0 to |addrs|
      invariant result == Deduped(addrs[..i], exclude, lower)
      invariant seen == Keys(result, lower)
    {
      assert addrs[..i + 1][..i] == addrs[..i];
      var key := lower(addrs[i]);
      if addrs[i] == "" || key in seen || key in exclude {
        continue;
      }
      seen := seen + {key};
      KeysOfMore(result, addrs[i], lower);
      result := result + [addrs[i]];
    }
    assert addrs[..|addrs|] == addrs;
  }

  lemma KeysOfMore(addrs: seq<string>, a: string, lower: string -> string)
    ensures Keys(addrs + [a], lower) == Keys(addrs, lower) + if a == "" then {} else {lower(a)}
  {
    assert forall x :: x in addrs + [a] <==> x in addrs || x == a;
  }

  /** One address for each key that is wanted, and none that is empty. */
  lemma {:induction false} DedupedKeys(addrs: seq<string>, exclude: set<string>, lower: string -> string)
    ensures OnePerKey(Deduped(addrs, exclude, lower), lower) && "" !in Deduped(addrs, exclude, lower)
    ensures Keys(Deduped(addrs, exclude, lower), lower) == Keys(addrs, lower) - exclude
  {
    if addrs != [] {
      var before, last := addrs[..|addrs| - 1], addrs[|addrs| - 1];
      var r := Deduped(before, exclude, lower);
      DedupedKeys(before, exclude, lower);
      assert addrs == before + [last];
      KeysOfMore(before, last, lower);
      KeysOfMore(r, last, lower);
      if last != "" && lower(last) !in Keys(r, lower) {
        OneMoreKey(r, last, lower);
      }
    }
  }

  lemma OneMoreKey(addrs: seq<string>, a: string, lower: string -> string)
    requires OnePerKey(addrs, lower) && "" !in addrs && lower(a) !in Keys(addrs, lower)
    ensures OnePerKey(addrs + [a], lower)
  {
    forall i | 0 <= i < |addrs| ensures lower(addrs[i]) != lower(a) {
      assert addrs[i] in addrs;
    }
  }

  /** Each address kept is the first of its key. */
  lemma {:induction false} DedupedAreFirsts(addrs: seq<string>, exclude: set<string>, lower: string -> string)
    ensures forall a :: a in Deduped(addrs, exclude, lower) ==> FirstOfItsKey(addrs, a, lower)
  {
    if addrs != [] {
      var before, last := addrs[..|addrs| - 1], addrs[|addrs| - 1];
      var r := Deduped(before, exclude, lower);
      DedupedAreFirsts(before, exclude, lower);
      DedupedKeys(before, exclude, lower);
      assert addrs == before + [last];
      forall a | a in r ensures FirstOfItsKey(addrs, a, lower) {
        FirstStaysFirst(before, last, a, lower);
      }
      if last != "" && lower(last) !in Keys(r, lower) && lower(last) !in exclude {
        assert forall j :: 0 <= j < |before| && before[j] != "" ==> lower(before[j]) in Keys(before, lower);
        assert FirstAt(addrs, last, lower, |addrs| - 1);
      }
    }
  }

  ghost predicate FirstAt(addrs: seq<string>, a: string, lower: string -> string, i: nat) {
    i < |addrs| && addrs[i] == a && forall j :: 0 <= j < i && addrs[j] != "" ==> lower(addrs[j]) != lower(a)
  }

  ghost predicate FirstOfItsKey(addrs: seq<string>, a: string, lower: string -> string) {
    exists i :: FirstAt(addrs, a, lower, i)
  }

  lemma FirstStaysFirst(addrs: seq<string>, more: string, a: string, lower: string -> string)
    requires FirstOfItsKey(addrs, a, lower)
    ensures FirstOfItsKey(addrs + [more], a, lower)
  {
    var i :| FirstAt(addrs, a, lower, i);
    assert FirstAt(addrs + [more], a, lower, i);
  }

  // ---------- Recipients of a reply ----------

  datatype Source = Source(
    fromAddr: Option<string>, toAddrs: seq<string>, ccAddrs: seq<string>, replyTo: Option<string>)

  datatype Mode = Reply | ReplyAll

  function SenderEmail(source: Source): string {
    if source.fromAddr.None? then "" else ExtractEmail(source.fromAddr.value)
  }

  predicate SentByOwn(source: Source, own: seq<string>, lower: string -> string) {
    SenderEmail(source) != "" && lower(SenderEmail(source)) in Keys(own, lower)
  }

  /** Whom a reply answers: the addresses it was sent to if one's own, else those Reply-To names,
      else the sender. */
  function Answered(source: Source, own: seq<string>, lower: string -> string, isSpace: char -> bool): seq<string> {
    if SentByOwn(source, own, lower) then Emails(source.toAddrs)
    else
      var named := if source.replyTo.None? then [] else Split(source.replyTo.value, isSpace);
      if named != [] then Emails(named) else [SenderEmail(source)]
  }

  /** Whom a reply answers: of one's own mail, those it was sent to; of other mail with a Reply-To that
      names anyone, those; of any other, its sender, if it has one. */
  lemma WhomAReplyAnswers(
    source: Source, own: seq<string>, lower: string -> string, isSpace: char -> bool, sender: string)
    requires sender == if source.fromAddr == None then "" else ExtractEmail(source.fromAddr.value)
    ensures var answered := Keys(Answered(source, own, lower, isSpace), lower);
            var mine := sender != "" && exists a :: a in own && a != "" && lower(a) == lower(sender);
            if mine then answered == Keys(Emails(source.toAddrs), lower)
            else if source.replyTo.Some? && Split(source.replyTo.value, isSpace) != [] then
              answered == Keys(Emails(Split(source.replyTo.value, isSpace)), lower)
            else answered == if sender == "" then {} else {lower(sender)}
  {
    assert sender == SenderEmail(source);
  }

  /** `some` are elements of `all`, in their order. */
  ghost predicate InOrder(some: seq<string>, all: seq<string>) {
    exists at: seq<nat> :: IsPlaced(some, all, at)
  }

  ghost predicate IsPlaced(some: seq<string>, all: seq<string>, at: seq<nat>) {
    && |at| == |some|
    && (forall i :: 0 <= i < |at| ==> at[i] < |all| && all[at[i]] == some[i])
    && (forall i, j :: 0 <= i < j < |at| ==> at[i] < at[j])
  }

  lemma NothingInOrder(all: seq<string>)
    ensures InOrder([], all)
  {
    assert IsPlaced([], all, []);
  }

  lemma InOrderOneMore(some: seq<string>, all: seq<string>, a: string)
    requires InOrder(some, all)
    ensures InOrder(some, all + [a]) && InOrder(some + [a], all + [a])
  {
    var at: seq<nat> :| IsPlaced(some, all, at);
    assert IsPlaced(some, all + [a], at);
    assert IsPlaced(some + [a], all + [a], at + [|all|]);
  }

  /** The addresses kept keep their order. */
  lemma {:induction false} DedupedInOrder(addrs: seq<string>, exclude: set<string>, lower: string -> string)
    ensures InOrder(Deduped(addrs, exclude, lower), addrs)
  {
    if addrs == [] {
      NothingInOrder(addrs);
    } else {
      var before, last := addrs[..|addrs| - 1], addrs[|addrs| - 1];
      DedupedInOrder(before, exclude, lower);
      InOrderOneMore(Deduped(before, exclude, lower), before, last);
      assert addrs == before + [last];
    }
  }

  method EmailsOf(addrs: seq<string>) returns (r: seq<string>)
    ensures r == Emails(addrs)
  {
    r := [];
    for i := 0 to |addrs|
      invariant r == Emails(addrs)[..i]
    {
      r := r + [ExtractEmail(addrs[i])];
    }
  }

  /** To and Cc of a reply are free of one's own addresses and of duplicates, share no address,
      and together name exactly whom the reply answers and, in a reply to all, everyone the
      original went to. */
  method DeriveRecipients(
    source: Source, own: seq<string>, mode: Mode, lower: string -> string, isSpace: char -> bool)
    returns (to: seq<string>, cc: seq<string>)
    ensures OnePerKey(to, lower) && OnePerKey(cc, lower) && "" !in to && "" !in cc
    ensures Keys(to, lower) !! Keys(cc, lower)
    ensures Keys(to, lower) == Keys(Answered(source, own, lower, isSpace), lower) - Keys(own, lower)
    ensures mode.Reply? ==> cc == []
    ensures mode.ReplyAll? ==>
              Keys(to, lower) + Keys(cc, lower)
              == Keys(Answered(source, own, lower, isSpace), lower)
                 + Keys(Emails(source.toAddrs + source.ccAddrs), lower)
                 - Keys(own, lower)
    ensures forall a :: a in to ==> FirstOfItsKey(Answered(source, own, lower, isSpace), a, lower)
    ensures forall a :: a in cc ==> FirstOfItsKey(Emails(source.toAddrs + source.ccAddrs), a, lower)
    ensures InOrder(to, Answered(source, own, lower, isSpace))
    ensures InOrder(cc, Emails(source.toAddrs + source.ccAddrs))
  {
    var ownSet := Keys(own, lower);
    var senderEmail := SenderEmail(source);
    var candidates: seq<string>;
    if senderEmail != "" && lower(senderEmail) in ownSet {
      candidates := EmailsOf(source.toAddrs);
    } else {
      var named := SplitAddressHeader(source.replyTo, isSpace);
      var replyTo := EmailsOf(named);
      candidates := if replyTo != [] then replyTo else if senderEmail != "" then [senderEmail] else [];
    }
    to := DedupeExcluding(candidates, ownSet, lower);
    ghost var answered := Answered(source, own, lower, isSpace);
    assert candidates == answered || (candidates == [] && answered == [""]);
    DedupedFacts(candidates, answered, ownSet, lower);
    cc := [];
    NothingInOrder(Emails(source.toAddrs + source.ccAddrs));
    if mode.ReplyAll? {
      var others := EmailsOf(source.toAddrs + source.ccAddrs);
      var exclude := ownSet + Keys(to, lower);
      cc := DedupeExcluding(others, exclude, lower);
      DedupedFacts(others, others, exclude, lower);
    }
  }

  /** An absent sender counts as no candidate. */
  lemma DedupedFacts(
    candidates: seq<string>, answered: seq<string>, exclude: set<string>, lower: string -> string)
    requires candidates == answered || (candidates == [] && answered == [""])
    ensures var r := Deduped(candidates, exclude, lower);
            && OnePerKey(r, lower) && "" !in r
            && Keys(r, lower) == Keys(answered, lower) - exclude
            && (forall a :: a in r ==> FirstOfItsKey(answered, a, lower))
            && InOrder(r, answered)
  {
    DedupedInOrder(candidates, exclude, lower);
    NothingInOrder(answered);
    assert Keys(candidates, lower) == Keys(answered, lower);
    DedupedKeys(candidates, exclude, lower);
    DedupedAreFirsts(candidates, exclude, lower);
  }

  // ---------- Additions to the derived recipients ----------

  function EmailKeys(addrs: seq<string>, lower: string -> string): set<string> {
    set a | a in addrs :: lower(ExtractEmail(a))
  }

  function EmailKey(a: string, lower: string -> string): string {
    lower(ExtractEmail(a))
  }

  /** Everything appended to `base` is from `extra`, and new to all before it and to `exclude`. */
  ghost predicate OnlyNewAppended(
    base: seq<string>, combined: seq<string>, extra: seq<string>, exclude: set<string>, lower: string -> string)
  {
    && base <= combined
    && forall i :: |base| <= i < |combined| ==>
         && combined[i] in extra && combined[i] != ""
         && EmailKey(combined[i], lower) !in EmailKeys(combined[..i], lower) + exclude
  }

  lemma AppendNew(
    base: seq<string>, combined: seq<string>, extra: seq<string>, exclude: set<string>,
    lower: string -> string, a: string)
    requires OnlyNewAppended(base, combined, extra, exclude, lower)
    requires a in extra && a != "" && EmailKey(a, lower) !in EmailKeys(combined, lower) + exclude
    ensures OnlyNewAppended(base, combined + [a], extra, exclude, lower)
  {
    assert forall i :: 0 <= i <= |combined| ==> (combined + [a])[..i] == combined[..i];
    assert combined[..|combined|] == combined;
  }

  /** Every address in `some` has a key in `seen`. */
  ghost predicate Covered(some: seq<string>, seen: set<string>, lower: string -> string) {
    forall a :: a in some && a != "" ==> EmailKey(a, lower) in seen
  }

  lemma CoverOneMore(extra: seq<string>, n: nat, seen: set<string>, more: set<string>, lower: string -> string)
    requires n < |extra| && Covered(extra[..n], seen, lower) && seen <= more
    requires extra[n] != "" ==> EmailKey(extra[n], lower) in more
    ensures Covered(extra[..n + 1], more, lower)
  {
    assert extra[..n + 1] == extra[..n] + [extra[n]];
  }

  /** The first `n` addresses of `extra` have been seen to. */
  ghost predicate Merging(
    base: seq<string>, combined: seq<string>, extra: seq<string>, exclude: set<string>, lower: string -> string,
    n: nat, seen: set<string>)
  {
    && n <= |extra| && seen == EmailKeys(combined, lower) + exclude
    && OnlyNewAppended(base, combined, extra, exclude, lower)
    && Covered(extra[..n], seen, lower)
    && InOrder(combined[|base|..], extra[..n])
  }

  lemma TakenInOrder(base: seq<string>, combined: seq<string>, extra: seq<string>, n: nat)
    requires base <= combined && n < |extra| && InOrder(combined[|base|..], extra[..n])
    ensures InOrder((combined + [extra[n]])[|base|..], extra[..n + 1])
  {
    InOrderOneMore(combined[|base|..], extra[..n], extra[n]);
    assert extra[..n + 1] == extra[..n] + [extra[n]];
    assert (combined + [extra[n]])[|base|..] == combined[|base|..] + [extra[n]];
  }

  lemma MergeTaken(
    base: seq<string>, combined: seq<string>, extra: seq<string>, exclude: set<string>, lower: string -> string,
    n: nat, seen: set<string>)
    requires Merging(base, combined, extra, exclude, lower, n, seen) && n < |extra|
    requires extra[n] != "" && EmailKey(extra[n], lower) !in seen
    ensures Merging(base, combined + [extra[n]], extra, exclude, lower, n + 1, seen + {EmailKey(extra[n], lower)})
  {
    var addr := extra[n];
    CoverOneMore(extra, n, seen, seen + {EmailKey(addr, lower)}, lower);
    TakenInOrder(base, combined, extra, n);
    EmailKeysOfMore(combined, addr, lower);
    AppendNew(base, combined, extra, exclude, lower, addr);
  }

  lemma MergePassed(
    base: seq<string>, combined: seq<string>, extra: seq<string>, exclude: set<string>, lower: string -> string,
    n: nat, seen: set<string>)
    requires Merging(base, combined, extra, exclude, lower, n, seen) && n < |extra|
    requires extra[n] == "" || EmailKey(extra[n], lower) in seen
    ensures Merging(base, combined, extra, exclude, lower, n + 1, seen)
  {
    CoverOneMore(extra, n, seen, seen, lower);
    InOrderOneMore(combined[|base|..], extra[..n], extra[n]);
    assert extra[..n + 1] == extra[..n] + [extra[n]];
  }

  lemma MergeBegins(base: seq<string>, extra: seq<string>, exclude: set<string>, lower: string -> string)
    ensures Merging(base, base, extra, exclude, lower, 0, EmailKeys(base, lower) + exclude)
  {
    NothingInOrder(extra[..0]);
    assert base[|base|..] == [];
  }

  /** The base stays as it is; what is appended comes from `extra`, in order, each address new to all
      that went before it and to `exclude`; and no address of `extra` is left without a place. */
  method MergeAddresses(
    base: seq<string>, extra: seq<string>, exclude: seq<string>, lower: string -> string)
    returns (combined: seq<string>)
    ensures OnlyNewAppended(base, combined, extra, EmailKeys(exclude, lower), lower)
    ensures Covered(extra, EmailKeys(combined, lower) + EmailKeys(exclude, lower), lower)
    ensures InOrder(combined[|base|..], extra)
  {
    combined := base;
    ghost var excluded := EmailKeys(exclude, lower);
    MergeBegins(base, extra, excluded, lower);
    assert extra[..|extra|] == extra;
    if extra == [] {
      return;
    }
    var excludeKeys := EmailKeys(exclude, lower);
    var seen := EmailKeys(base, lower) + excludeKeys;
    for n := 0 to |extra|
      invariant Merging(base, combined, extra, excluded, lower, n, seen)
    {
      var addr := extra[n];
      var key := EmailKey(addr, lower);
      if addr != "" && key !in seen {
        MergeTaken(base, combined, extra, excluded, lower, n, seen);
        seen := seen + {key};
        combined := combined + [addr];
      } else {
        MergePassed(base, combined, extra, excluded, lower, n, seen);
      }
    }
  }

  lemma EmailKeysOfMore(addrs: seq<string>, a: string, lower: string -> string)
    ensures EmailKeys(addrs + [a], lower) == EmailKeys(addrs, lower) + {EmailKey(a, lower)}
  {
    assert forall x :: x in addrs + [a] <==> x in addrs || x == a;
  }
}
