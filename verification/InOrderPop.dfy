/**
 Monitor mode: turning an in-order receive indication into a linked list of buffers
 (`htt_rx_mon_amsdu_rx_in_order_pop_ll` and `htt_mon_rx_handle_amsdu_packet`).

 The indication is a stream of words, one per receive buffer. The code does not look at the length
 of the message, so the stream has no end here: what stops the loops is that every pop that
 succeeds takes an entry out of the finite hash table.
 */
module InOrderPop {
  import opened Basics

  /** A buffer posted to the hardware is known by the DMA address it is mapped at. */
  type Nbuf = nat

  /** Where each buffer's `next` points, and the fragment lists. */
  type Links = map<Nbuf, Option<Nbuf>>
  type Frags = map<Nbuf, Nbuf>

  /** One word of the indication: DMA address of a buffer, and whether the buffer ends its MSDU. */
  datatype Word = Word(paddr: nat, last: bool)

  /** An indication: the words, the buffers in the hash table when it arrives, and the buffers whose
      descriptor carries the length-error bit. */
  datatype Ind = Ind(words: nat -> Word, posted: set<Nbuf>, bad: set<Nbuf>)

  /** The buffer that word `w` names. */
  function Buf(x: Ind, w: nat): Nbuf {
    x.words(w).paddr
  }

  function Last(x: Ind, w: nat): bool {
    x.words(w).last
  }

  // ----- what an indication means, word by word -----

  /** The hash table after the first `n` words were looked up. */
  function HashAfter(x: Ind, n: nat): set<Nbuf> {
    set b | b in x.posted && forall v: nat :: v < n ==> b != Buf(x, v)
  }

  predicate Poppable(x: Ind, w: nat) {
    Buf(x, w) in HashAfter(x, w)
  }

  /** The first `n` words all name a buffer that is still in the table when their turn comes. */
  predicate AllPop(x: Ind, n: nat) {
    n == 0 || (AllPop(x, n - 1) && Poppable(x, n - 1))
  }

  /** A word starts an MSDU when it is the first, or its predecessor ended one. */
  predicate Starts(x: Ind, w: nat) {
    w == 0 || Last(x, w - 1)
  }

  /** Where the MSDU that word `w` belongs to starts. */
  function StartOf(x: Ind, w: nat): (s: nat)
    ensures s <= w && Starts(x, s)
  {
    if Starts(x, w) then w else StartOf(x, w - 1)
  }

  /** A word is good when the MSDU it belongs to starts with a buffer without length error. */
  predicate Good(x: Ind, w: nat) {
    Buf(x, StartOf(x, w)) !in x.bad
  }

  /** How many MSDUs end within the first `n` words. */
  function Ends(x: Ind, n: nat): nat {
    if n == 0 then 0 else Ends(x, n - 1) + if Last(x, n - 1) then 1 else 0
  }

  /** The words among the first `n` that start a good MSDU, in message order. */
  function HeadWords(x: Ind, n: nat): seq<nat> {
    if n == 0 then []
    else HeadWords(x, n - 1) + if Starts(x, n - 1) && Good(x, n - 1) then [n - 1] else []
  }

  /** Words below `n` that start good MSDUs, in ascending order. */
  predicate StartsInOrder(x: Ind, ws: seq<nat>, n: nat) {
    && (forall i :: 0 <= i < |ws| ==> ws[i] < n && Starts(x, ws[i]))
    && (forall i, j :: 0 <= i < j < |ws| ==> ws[i] < ws[j])
  }

  lemma {:induction false} HeadWordsInOrder(x: Ind, n: nat)
    ensures StartsInOrder(x, HeadWords(x, n), n)
  {
    if n == 0 {
    } else {
      HeadWordsInOrder(x, n - 1);
      var ws := HeadWords(x, n - 1);
      assert HeadWords(x, n) == ws + [n - 1] || HeadWords(x, n) == ws + [];
      assert ws + [] == ws;
    }
  }

  /** Buffers of the words `ws`. */
  function Bufs(x: Ind, ws: seq<nat>): (r: seq<Nbuf>)
    ensures |r| == |ws| && forall i :: 0 <= i < |r| ==> r[i] == Buf(x, ws[i])
  {
    seq(|ws|, i requires 0 <= i < |ws| => Buf(x, ws[i]))
  }

  /** Buffers of the words from `from` up to, not including, `end`. */
  function Span(x: Ind, from: nat, end: nat): (r: seq<Nbuf>)
    requires from <= end
    ensures |r| == end - from && (from < end ==> r[0] == Buf(x, from))
    decreases end
  {
    if from == end then [] else Span(x, from, end - 1) + [Buf(x, end - 1)]
  }

  /** Buffers of the bad words among the first `n`, in message order. */
  function BadBufs(x: Ind, n: nat): seq<Nbuf> {
    if n == 0 then [] else BadBufs(x, n - 1) + if Good(x, n - 1) then [] else [Buf(x, n - 1)]
  }

  /** The indication is used up by its first `n` words: they hold `count` whole MSDUs. One word is
      popped even when `count` is zero. */
  predicate Complete(x: Ind, count: nat, n: nat) {
    n > 0 && if count == 0 then n == 1 else Ends(x, n) == count && Last(x, n - 1)
  }

  /** Words `s` to `e` belong to the one MSDU that starts at `s`. */
  predicate InMsdu(x: Ind, s: nat, e: nat) {
    s <= e && Starts(x, s) && forall i: nat :: s <= i < e ==> !Last(x, i)
  }

  // ----- facts about the words -----

  lemma InMsduPrefix(x: Ind, s: nat, w: nat, e: nat)
    requires InMsdu(x, s, e) && s <= w <= e
    ensures InMsdu(x, s, w) && (w < e ==> !Last(x, w))
  {
  }

  lemma {:induction false} AllPopPrefix(x: Ind, m: nat, n: nat)
    requires AllPop(x, n) && m <= n
    ensures AllPop(x, m) && (m < n ==> Poppable(x, m))
    decreases n - m
  {
    if m == n {
    } else {
      AllPopPrefix(x, m + 1, n);
    }
  }

  lemma AllPopNext(x: Ind, n: nat)
    requires AllPop(x, n) && Poppable(x, n)
    ensures AllPop(x, n + 1) && HashAfter(x, n + 1) == HashAfter(x, n) - {Buf(x, n)}
  {
  }

  lemma {:induction false} MsduWord(x: Ind, s: nat, e: nat)
    requires InMsdu(x, s, e)
    ensures StartOf(x, e) == s && Ends(x, e) == Ends(x, s)
    decreases e - s
  {
    if s == e {
    } else {
      MsduWord(x, s, e - 1);
    }
  }

  lemma MsduEnds(x: Ind, s: nat, e: nat)
    requires InMsdu(x, s, e)
    ensures Ends(x, e + 1) == Ends(x, s) + if Last(x, e) then 1 else 0
  {
    MsduWord(x, s, e);
  }

  lemma {:induction false} MsduWords(x: Ind, s: nat, e: nat)
    requires InMsdu(x, s, e)
    ensures Good(x, s) ==> HeadWords(x, e + 1) == HeadWords(x, s) + [s] && BadBufs(x, e + 1) == BadBufs(x, s)
    ensures !Good(x, s) ==>
              HeadWords(x, e + 1) == HeadWords(x, s) && BadBufs(x, e + 1) == BadBufs(x, s) + Span(x, s, e + 1)
    decreases e - s
  {
    MsduWord(x, s, e);
    MsduWord(x, s, s);
    if s < e {
      MsduWords(x, s, e - 1);
    } else {
      assert Span(x, s, e + 1) == [Buf(x, s)];
    }
  }

  lemma SpanSnoc(x: Ind, front: seq<Nbuf>, s: nat, e: nat)
    requires s <= e
    ensures front + Span(x, s, e) + [Buf(x, e)] == front + Span(x, s, e + 1)
  {
  }

  lemma {:induction false} SpanSplit(x: Ind, from: nat, end: nat)
    requires from < end
    ensures Span(x, from, end)[1..] == Span(x, from + 1, end)
    decreases end
  {
    if from + 1 == end {
    } else {
      SpanSplit(x, from, end - 1);
    }
  }

  lemma {:induction false} HashShrinks(x: Ind, v: nat, w: nat)
    requires v <= w
    ensures HashAfter(x, w) <= HashAfter(x, v)
    decreases w - v
  {
    if v == w {
    } else {
      HashShrinks(x, v, w - 1);
    }
  }

  /** Words that pop give different buffers. */
  lemma Distinct(x: Ind, v: nat, w: nat)
    requires AllPop(x, w + 1) && v < w
    ensures Buf(x, v) != Buf(x, w)
  {
    assert Poppable(x, w);
    HashShrinks(x, v + 1, w);
  }

  lemma {:induction false} EndsGrow(x: Ind, m: nat, n: nat)
    requires m <= n
    ensures Ends(x, m) <= Ends(x, n)
    decreases n - m
  {
    if m == n {
    } else {
      EndsGrow(x, m, n - 1);
    }
  }

  /** Giving up at a word that does not pop, before the indication is used up, is giving up for good. */
  lemma NeverCompletes(x: Ind, count: nat, n: nat)
    requires !Poppable(x, n) && (n == 0 || Ends(x, n) < count)
    ensures !exists m: nat :: Complete(x, count, m) && AllPop(x, m)
  {
    forall m: nat | Complete(x, count, m) ensures !AllPop(x, m) {
      if m <= n {
        EndsGrow(x, m, n);
      } else if AllPop(x, m) {
        AllPopPrefix(x, n, m);
      }
    }
  }

  lemma CompleteUnique(x: Ind, count: nat, m: nat, n: nat)
    requires Complete(x, count, m) && Complete(x, count, n)
    ensures m == n
  {
    if m < n {
      EndsGrow(x, m, n - 1);
    } else if n < m {
      EndsGrow(x, n, m - 1);
    }
  }

  /** When an indication of `count` MSDUs is served by its first `n` words, read off the words: they name
      different posted buffers, and hold `count` ends of MSDUs, the last of them at the end; one word is
      looked up when no MSDU is announced. */
  lemma ServedMeans(x: Ind, count: nat, n: nat)
    ensures Complete(x, count, n) && AllPop(x, n) <==>
            && n > 0 && (forall w: nat :: w < n ==> FreshWord(x, w))
            && if count == 0 then n == 1
               else x.words(n - 1).last && |set w: nat | w < n && x.words(w).last| == count
  {
    AllPopMeans(x, n);
    EndsAre(x, n);
  }

  /** Word `w` names a posted buffer that no word before it names. */
  predicate FreshWord(x: Ind, w: nat) {
    x.words(w).paddr in x.posted && forall v: nat :: v < w ==> x.words(v).paddr != x.words(w).paddr
  }

  lemma {:induction false} AllPopMeans(x: Ind, n: nat)
    ensures AllPop(x, n) <==> forall w: nat :: w < n ==> FreshWord(x, w)
  {
    if n == 0 {
    } else {
      AllPopMeans(x, n - 1);
      assert FreshWord(x, n - 1) ==> Poppable(x, n - 1);
      if Poppable(x, n - 1) {
        forall v: nat | v < n - 1 ensures x.words(v).paddr != x.words(n - 1).paddr {
          assert Buf(x, n - 1) != Buf(x, v);
        }
      }
    }
  }

  // ----- linked buffers -----

  function NextAt(next: Links, b: Nbuf): Option<Nbuf> {
    if b in next then next[b] else None
  }

  /** Following `next` from `from` reads exactly `list`. */
  predicate Reads(next: Links, from: Option<Nbuf>, list: seq<Nbuf>)
    decreases |list|
  {
    if list == [] then from == None
    else from == Some(list[0]) && Reads(next, NextAt(next, list[0]), list[1..])
  }

  predicate Chained(next: Links, list: seq<Nbuf>) {
    forall i: nat :: i < |list| - 1 ==> ChainedAt(next, list, i)
  }

  predicate ChainedAt(next: Links, list: seq<Nbuf>, i: nat)
    requires i < |list| - 1
  {
    NextAt(next, list[i]) == Some(list[i + 1])
  }

  lemma {:induction false} ChainReads(next: Links, list: seq<Nbuf>)
    requires list != [] && Chained(next, list) && NextAt(next, list[|list| - 1]) == None
    ensures Reads(next, Some(list[0]), list)
    decreases |list|
  {
    if |list| == 1 {
    } else {
      assert ChainedAt(next, list, 0);
      forall i: nat | i < |list[1..]| - 1 ensures ChainedAt(next, list[1..], i) {
        assert ChainedAt(next, list, i + 1);
      }
      ChainReads(next, list[1..]);
    }
  }

  /** How a good word's buffer is tied to the rest of its MSDU: the first buffer holds the second as
      its fragment list, the others are linked one to the next. */
  predicate Tied(x: Ind, next: Links, ext: Frags, w: nat) {
    && (Good(x, w) && Starts(x, w) && Last(x, w) ==> Buf(x, w) !in ext)
    && (Good(x, w) && Starts(x, w) && !Last(x, w) ==> Buf(x, w) in ext && ext[Buf(x, w)] == Buf(x, w + 1))
    && (Good(x, w) && !Starts(x, w) ==>
          NextAt(next, Buf(x, w)) == if Last(x, w) then None else Some(Buf(x, w + 1)))
  }

  predicate AllTied(x: Ind, next: Links, ext: Frags, n: nat) {
    forall w: nat :: w < n ==> Tied(x, next, ext, w)
  }

  function ExtAt(ext: Frags, b: Nbuf): Option<Nbuf> {
    if b in ext then Some(ext[b]) else None
  }

  lemma {:induction false} TailReads(x: Ind, next: Links, ext: Frags, s: nat, w: nat, e: nat)
    requires s < w <= e && AllTied(x, next, ext, e + 1) && InMsdu(x, s, e) && Last(x, e) && Good(x, s)
    ensures Reads(next, Some(Buf(x, w)), Span(x, w, e + 1))
    decreases e - w
  {
    InMsduPrefix(x, s, s, e);
    InMsduPrefix(x, s, w, e);
    MsduWord(x, s, w);
    MsduWord(x, s, s);
    InMsduPrefix(x, s, w - 1, e);
    assert Tied(x, next, ext, w);
    var all := Span(x, w, e + 1);
    assert all[0] == Buf(x, w);
    if w == e {
    } else {
      TailReads(x, next, ext, s, w + 1, e);
    }
    SpanSplit(x, w, e + 1);
  }

  /** The fragment list of a good MSDU that covers words `s` to `e` reads its other buffers in order. */
  lemma FragmentsRead(x: Ind, next: Links, ext: Frags, s: nat, e: nat)
    requires InMsdu(x, s, e) && Last(x, e) && Good(x, s) && AllTied(x, next, ext, e + 1)
    ensures Reads(next, ExtAt(ext, Buf(x, s)), Span(x, s + 1, e + 1))
  {
    assert Tied(x, next, ext, s);
    InMsduPrefix(x, s, s, e);
    if s < e {
      TailReads(x, next, ext, s, s + 1, e);
    }
  }

  // ----- the meaning in terms of the message -----

  /** Word `s` starts the MSDU of word `w`: it is first, or behind a word that ended one, and no word from
      it up to `w` ends one. */
  ghost predicate Leads(x: Ind, s: nat, w: nat) {
    && s <= w && (s == 0 || x.words(s - 1).last)
    && forall i: nat :: s <= i < w ==> !x.words(i).last
  }

  lemma {:induction false} StartOfIs(x: Ind, s: nat, w: nat)
    ensures Leads(x, s, w) <==> s == StartOf(x, w)
    decreases w
  {
    if Starts(x, w) {
      assert w > 0 ==> x.words(w - 1).last;
    } else {
      StartOfIs(x, s, w - 1);
      assert Leads(x, s, w) <==> s < w && Leads(x, s, w - 1);
    }
  }

  /** Buffer `b` starts an MSDU with word `w` and carries no length error. */
  predicate StartsGood(x: Ind, w: nat, b: Nbuf) {
    (w == 0 || x.words(w - 1).last) && x.words(w).paddr == b && b !in x.bad
  }

  /** The list that is delivered holds exactly the buffers that start an MSDU and carry no length error. */
  lemma {:induction false} HeadsAre(x: Ind, n: nat, b: Nbuf)
    ensures b in Heads(x, n) <==> exists w: nat :: w < n && StartsGood(x, w, b)
  {
    if n == 0 {
      assert Heads(x, n) == [];
    } else {
      HeadsAre(x, n - 1, b);
      HeadsLast(x, n);
      assert Starts(x, n - 1) ==> StartOf(x, n - 1) == n - 1;
      assert StartsGood(x, n - 1, b) <==> Starts(x, n - 1) && Good(x, n - 1) && Buf(x, n - 1) == b;
      assert (exists w: nat :: w < n && StartsGood(x, w, b)) <==>
             StartsGood(x, n - 1, b) || exists w: nat :: w < n - 1 && StartsGood(x, w, b);
    }
  }

  lemma HeadsLast(x: Ind, n: nat)
    requires n > 0
    ensures Heads(x, n) == Heads(x, n - 1) + if Starts(x, n - 1) && Good(x, n - 1) then [Buf(x, n - 1)] else []
  {
  }

  /** Buffer `b`, of word `w`, belongs to an MSDU whose first buffer carries a length error. */
  ghost predicate OfBadMsdu(x: Ind, w: nat, b: Nbuf) {
    x.words(w).paddr == b && exists s: nat :: Leads(x, s, w) && x.words(s).paddr in x.bad
  }

  predicate BadAt(x: Ind, w: nat, b: Nbuf) {
    Buf(x, w) == b && !Good(x, w)
  }

  lemma OfBadMsduIff(x: Ind, w: nat, b: Nbuf)
    ensures OfBadMsdu(x, w, b) <==> BadAt(x, w, b)
  {
    StartOfIs(x, StartOf(x, w), w);
    if s: nat :| Leads(x, s, w) && x.words(s).paddr in x.bad {
      StartOfIs(x, s, w);
    }
  }

  lemma {:induction false} BadBufsWords(x: Ind, n: nat, b: Nbuf)
    ensures b in BadBufs(x, n) <==> exists w: nat :: w < n && BadAt(x, w, b)
  {
    if n == 0 {
    } else {
      BadBufsWords(x, n - 1, b);
      assert BadBufs(x, n) == BadBufs(x, n - 1) + if Good(x, n - 1) then [] else [Buf(x, n - 1)];
      assert b in BadBufs(x, n) <==> b in BadBufs(x, n - 1) || BadAt(x, n - 1, b);
    }
  }

  /** The buffers that are freed are exactly those of the MSDUs whose first buffer carries a length error. */
  lemma BadBufsAre(x: Ind, n: nat, b: Nbuf)
    ensures b in BadBufs(x, n) <==> exists w: nat :: w < n && OfBadMsdu(x, w, b)
  {
    BadBufsWords(x, n, b);
    forall w: nat ensures OfBadMsdu(x, w, b) <==> BadAt(x, w, b) {
      OfBadMsduIff(x, w, b);
    }
  }

  /** An indication is used up by `n` words when they hold as many ends of MSDUs as it announces, and end
      with one. */
  lemma {:induction false} EndsAre(x: Ind, n: nat)
    ensures Ends(x, n) == |set w: nat | w < n && x.words(w).last|
  {
    var ends := set w: nat | w < n && x.words(w).last;
    if n == 0 {
      assert ends == {};
    } else {
      EndsAre(x, n - 1);
      var before := set w: nat | w < n - 1 && x.words(w).last;
      assert ends == if x.words(n - 1).last then before + {n - 1} else before;
    }
  }

  // ----- the receive path -----

  /** Buffers of the first `n` words keep their links. */
  predicate Keeps(x: Ind, n: nat, next: Links, next': Links) {
    forall w: nat :: w < n ==> KeepsAt(x, w, next, next')
  }

  predicate KeepsAt(x: Ind, w: nat, next: Links, next': Links) {
    NextAt(next', Buf(x, w)) == NextAt(next, Buf(x, w))
  }

  /** The buffers of words `s` to `e` are linked, each to the following one. */
  predicate Linked(x: Ind, s: nat, e: nat, next: Links)
    decreases e
  {
    e <= s || (Linked(x, s, e - 1, next) && NextAt(next, Buf(x, e - 1)) == Some(Buf(x, e)))
  }

  lemma {:induction false} LinkedStays(x: Ind, s: nat, e: nat, next: Links, next': Links)
    requires Linked(x, s, e, next) && Keeps(x, e, next, next')
    ensures Linked(x, s, e, next')
    decreases e
  {
    if e <= s {
    } else {
      LinkedStays(x, s, e - 1, next, next');
      assert KeepsAt(x, e - 1, next, next');
    }
  }

  /** Changing the link of word `e`'s buffer touches no earlier word's. */
  lemma LinkOne(x: Ind, e: nat, next: Links, to: Option<Nbuf>)
    requires AllPop(x, e + 1)
    ensures Keeps(x, e, next, next[Buf(x, e) := to])
  {
    var next' := next[Buf(x, e) := to];
    forall w: nat | w < e ensures KeepsAt(x, w, next, next') {
      Distinct(x, w, e);
    }
  }

  lemma KeepsTwice(x: Ind, m: nat, n: nat, next0: Links, next: Links, next': Links)
    requires m <= n && Keeps(x, m, next0, next) && Keeps(x, n, next, next')
    ensures Keeps(x, m, next0, next')
  {
    forall w: nat | w < m ensures KeepsAt(x, w, next0, next') {
      assert KeepsAt(x, w, next0, next) && KeepsAt(x, w, next, next');
    }
  }

  /** A round of the fragment loop: tie word `e`'s buffer to `to`. */
  lemma LinkRound(x: Ind, s: nat, e: nat, next0: Links, next: Links, to: Option<Nbuf>)
    requires AllPop(x, e + 1) && s < e
    requires Linked(x, s + 1, e, next) && Keeps(x, s + 1, next0, next)
    ensures var next' := next[Buf(x, e) := to];
            && Linked(x, s + 1, e, next') && Keeps(x, s + 1, next0, next') && NextAt(next', Buf(x, e)) == to
            && (to == Some(Buf(x, e + 1)) ==> Linked(x, s + 1, e + 1, next'))
  {
    LinkOne(x, e, next, to);
    KeepsTwice(x, s + 1, e, next0, next, next[Buf(x, e) := to]);
    LinkedStays(x, s + 1, e, next, next[Buf(x, e) := to]);
  }

  /** The list so far, after whole MSDUs that end with word `n - 1`: `prev` is its last buffer. */
  predicate ListOf(x: Ind, n: nat, next: Links, ext: Frags, prev: Option<Nbuf>) {
    var list := Heads(x, n);
    && Chained(next, list)
    && AllTied(x, next, ext, n)
    && prev == if list == [] then None else Some(list[|list| - 1])
  }

  /** The buffers that start good MSDUs, in message order. */
  function Heads(x: Ind, n: nat): (r: seq<Nbuf>) {
    Bufs(x, HeadWords(x, n))
  }

  lemma HeadsStep(x: Ind, s: nat, e: nat)
    requires InMsdu(x, s, e)
    ensures Heads(x, e + 1) == if Good(x, s) then Heads(x, s) + [Buf(x, s)] else Heads(x, s)
    ensures BadBufs(x, e + 1) == BadBufs(x, s) + if Good(x, s) then [] else Span(x, s, e + 1)
  {
    MsduWords(x, s, e);
    assert BadBufs(x, s) + [] == BadBufs(x, s);
  }

  lemma BadKeepsList(x: Ind, s: nat, e: nat, next: Links, ext: Frags, prev: Option<Nbuf>)
    requires InMsdu(x, s, e) && !Good(x, s) && ListOf(x, s, next, ext, prev)
    ensures ListOf(x, e + 1, next, ext, prev)
  {
    HeadsStep(x, s, e);
    BadKeepsTied(x, s, e, next, ext);
    assert Heads(x, e + 1) == Heads(x, s);
  }

  lemma BadKeepsTied(x: Ind, s: nat, e: nat, next: Links, ext: Frags)
    requires InMsdu(x, s, e) && !Good(x, s) && AllTied(x, next, ext, s)
    ensures AllTied(x, next, ext, e + 1)
  {
    forall w: nat | w < e + 1 ensures Tied(x, next, ext, w) {
      if s <= w {
        BadWord(x, s, w, e);
      }
    }
  }

  lemma BadWord(x: Ind, s: nat, w: nat, e: nat)
    requires InMsdu(x, s, e) && !Good(x, s) && s <= w <= e
    ensures !Good(x, w)
  {
    InMsduPrefix(x, s, w, e);
    MsduWord(x, s, w);
    MsduWord(x, s, s);
  }

  lemma {:induction false} LinkedAt(x: Ind, s: nat, e: nat, next: Links, w: nat)
    requires Linked(x, s, e, next) && s <= w < e
    ensures NextAt(next, Buf(x, w)) == Some(Buf(x, w + 1))
    decreases e
  {
    if w == e - 1 {
    } else {
      LinkedAt(x, s, e - 1, next, w);
    }
  }

  /** What a good MSDU's buffers look like once they are collected. */
  predicate Collected(x: Ind, s: nat, e: nat, next0: Links, ext0: Frags,
                      next: Links, ext: Frags)
  {
    if s == e then next == next0 && ext == ext0
    else
      && s < e
      && ext == ext0[Buf(x, s) := Buf(x, s + 1)]
      && Linked(x, s + 1, e, next) && Keeps(x, s + 1, next0, next)
      && NextAt(next, Buf(x, e)) == None
  }

  /** The words of a collected MSDU are tied ... */
  lemma CollectedTied(x: Ind, s: nat, e: nat, next0: Links, ext0: Frags,
                      next: Links, ext: Frags, w: nat)
    requires InMsdu(x, s, e) && Last(x, e) && Buf(x, s) !in ext0
    requires Collected(x, s, e, next0, ext0, next, ext) && s <= w <= e
    ensures Tied(x, next, ext, w)
  {
    InMsduPrefix(x, s, w, e);
    if s < w {
      InMsduPrefix(x, s, w - 1, e);
      if w < e {
        LinkedAt(x, s + 1, e, next, w);
      }
    }
  }

  /** ... and the words before it stay tied. */
  lemma CollectedKeeps(x: Ind, s: nat, e: nat, next0: Links, ext0: Frags,
                       next: Links, ext: Frags, w: nat)
    requires AllPop(x, s + 1) && Tied(x, next0, ext0, w) && Collected(x, s, e, next0, ext0, next, ext) && w < s
    ensures Tied(x, next, ext, w)
  {
    Distinct(x, w, s);
    assert s < e ==> KeepsAt(x, w, next0, next);
  }

  predicate PointsTo(next: Links, prev: Option<Nbuf>, b: Option<Nbuf>) {
    prev.Some? ==> NextAt(next, prev.value) == b
  }

  lemma HeadIsWord(x: Ind, n: nat, i: nat) returns (w: nat)
    requires i < |Heads(x, n)|
    ensures w < n && w == HeadWords(x, n)[i] && Heads(x, n)[i] == Buf(x, w) && Starts(x, w)
  {
    HeadWordsInOrder(x, n);
    w := HeadWords(x, n)[i];
  }

  lemma CollectedChain(x: Ind, s: nat, e: nat, next0: Links, ext0: Frags,
                       next: Links, ext: Frags, i: nat)
    requires Collected(x, s, e, next0, ext0, next, ext) && i < |Heads(x, s)|
    ensures NextAt(next, Heads(x, s)[i]) == NextAt(next0, Heads(x, s)[i])
  {
    var w := HeadIsWord(x, s, i);
    assert s < e ==> KeepsAt(x, w, next0, next);
  }

  lemma CollectedAllTied(x: Ind, s: nat, e: nat, next0: Links, ext0: Frags,
                         next: Links, ext: Frags)
    requires InMsdu(x, s, e) && Last(x, e) && AllPop(x, s + 1) && Buf(x, s) !in ext0
    requires AllTied(x, next0, ext0, s) && Collected(x, s, e, next0, ext0, next, ext)
    ensures AllTied(x, next, ext, e + 1)
  {
    forall w: nat | w < e + 1 ensures Tied(x, next, ext, w) {
      if w < s {
        assert Tied(x, next0, ext0, w);
        CollectedKeeps(x, s, e, next0, ext0, next, ext, w);
      } else {
        CollectedTied(x, s, e, next0, ext0, next, ext, w);
      }
    }
  }

  /** A chain that goes on to `b` is a longer chain. */
  lemma ChainSnoc(next0: Links, next: Links, list: seq<Nbuf>, b: Nbuf)
    requires Chained(next0, list) && (list == [] || NextAt(next0, list[|list| - 1]) == Some(b))
    requires forall i :: 0 <= i < |list| ==> NextAt(next, list[i]) == NextAt(next0, list[i])
    ensures Chained(next, list + [b])
  {
    forall i: nat | i < |list + [b]| - 1 ensures ChainedAt(next, list + [b], i) {
      if i < |list| - 1 {
        assert ChainedAt(next0, list, i);
      }
    }
  }

  /** Collecting a good MSDU behind the list makes its first buffer the list's last one. */
  lemma GoodGrowsList(x: Ind, s: nat, e: nat, next0: Links, ext0: Frags,
                      next: Links, ext: Frags, prev: Option<Nbuf>)
    requires InMsdu(x, s, e) && Last(x, e) && Good(x, s) && AllPop(x, s + 1) && Buf(x, s) !in ext0
    requires ListOf(x, s, next0, ext0, prev) && PointsTo(next0, prev, Some(Buf(x, s)))
    requires Collected(x, s, e, next0, ext0, next, ext)
    ensures ListOf(x, e + 1, next, ext, Some(Buf(x, s)))
  {
    HeadsStep(x, s, e);
    var list := Heads(x, s);
    forall i | 0 <= i < |list| ensures NextAt(next, list[i]) == NextAt(next0, list[i]) {
      CollectedChain(x, s, e, next0, ext0, next, ext, i);
    }
    ChainSnoc(next0, next, list, Buf(x, s));
    CollectedAllTied(x, s, e, next0, ext0, next, ext);
  }

  lemma TyingKeepsLink(x: Ind, n: nat, next: Links, b: Option<Nbuf>, i: nat)
    requires AllPop(x, n) && i < |Heads(x, n)| - 1
    ensures var list := Heads(x, n);
            NextAt(next[list[|list| - 1] := b], list[i]) == NextAt(next, list[i])
  {
    var w := HeadIsWord(x, n, i);
    var p := HeadIsWord(x, n, |Heads(x, n)| - 1);
    HeadWordsInOrder(x, n);
    WordsDiffer(x, n, w, p);
  }

  lemma TyingKeepsTied(x: Ind, n: nat, next: Links, ext: Frags, p: nat, b: Option<Nbuf>, w: nat)
    requires AllPop(x, n) && w < n && p < n && Starts(x, p) && Tied(x, next, ext, w)
    ensures Tied(x, next[Buf(x, p) := b], ext, w)
  {
    if !Starts(x, w) {
      WordsDiffer(x, n, w, p);
    }
  }

  /** What holds after whole MSDUs that end with word `n - 1`: the list is right, the bad buffers are
      freed, and no buffer still posted has a fragment list. */
  ghost predicate Taken(x: Ind, n: nat, next: Links, ext: Frags, prev: Option<Nbuf>,
                  freed0: seq<Nbuf>, freed: seq<Nbuf>)
  {
    && ListOf(x, n, next, ext, prev)
    && freed == freed0 + BadBufs(x, n)
    && Bare(x, n, ext)
  }

  /** No buffer that is still posted after `n` words has a fragment list. */
  ghost predicate Bare(x: Ind, n: nat, ext: Frags) {
    forall b: Nbuf :: BareAt(x, n, ext, b)
  }

  predicate BareAt(x: Ind, n: nat, ext: Frags, b: Nbuf) {
    b in HashAfter(x, n) ==> b !in ext
  }

  /** Posted buffers still have no fragment list when only word `s`'s buffer, which is popped, got one. */
  lemma PostedStayBare(x: Ind, s: nat, n: nat, ext0: Frags, ext: Frags)
    requires s < n && (ext == ext0 || ext == ext0[Buf(x, s) := Buf(x, s + 1)])
    requires Bare(x, s, ext0)
    ensures Bare(x, n, ext)
  {
    HashShrinks(x, s, n);
    forall b: Nbuf ensures BareAt(x, n, ext, b) {
      assert BareAt(x, s, ext0, b);
    }
  }

  lemma GoodTaken(x: Ind, s: nat, e: nat, next0: Links, ext0: Frags,
                  next: Links, ext: Frags, prev: Option<Nbuf>,
                  freed0: seq<Nbuf>, freed: seq<Nbuf>)
    requires InMsdu(x, s, e) && Last(x, e) && Good(x, s) && AllPop(x, s + 1)
    requires Taken(x, s, next0, ext0, prev, freed0, freed) && PointsTo(next0, prev, Some(Buf(x, s)))
    requires Collected(x, s, e, next0, ext0, next, ext)
    ensures Taken(x, e + 1, next, ext, Some(Buf(x, s)), freed0, freed)
  {
    assert Poppable(x, s) && BareAt(x, s, ext0, Buf(x, s));
    GoodGrowsList(x, s, e, next0, ext0, next, ext, prev);
    BadBufsStep(x, s, e);
    CollectedStayBare(x, s, e, next0, ext0, next, ext);
  }

  lemma CollectedStayBare(x: Ind, s: nat, e: nat, next0: Links, ext0: Frags,
                          next: Links, ext: Frags)
    requires s <= e && Bare(x, s, ext0) && Collected(x, s, e, next0, ext0, next, ext)
    ensures Bare(x, e + 1, ext)
  {
    PostedStayBare(x, s, e + 1, ext0, ext);
  }

  lemma BadBufsStep(x: Ind, s: nat, e: nat)
    requires InMsdu(x, s, e)
    ensures BadBufs(x, e + 1) == if Good(x, s) then BadBufs(x, s) else BadBufs(x, s) + Span(x, s, e + 1)
  {
    HeadsStep(x, s, e);
    assert BadBufs(x, s) + [] == BadBufs(x, s);
  }

  lemma AppendTwice(a: seq<Nbuf>, b: seq<Nbuf>, c: seq<Nbuf>)
    ensures a + b + c == a + (b + c)
  {
  }

  lemma BadTaken(x: Ind, s: nat, e: nat, next: Links, ext: Frags, prev: Option<Nbuf>,
                 freed0: seq<Nbuf>, freed: seq<Nbuf>)
    requires InMsdu(x, s, e) && !Good(x, s) && Taken(x, s, next, ext, prev, freed0, freed)
    ensures Taken(x, e + 1, next, ext, prev, freed0, freed + Span(x, s, e + 1))
  {
    BadKeepsList(x, s, e, next, ext, prev);
    BadBufsStep(x, s, e);
    AppendTwice(freed0, BadBufs(x, s), Span(x, s, e + 1));
    PostedStayBare(x, s, e + 1, ext, ext);
  }

  /** Only the last buffer's link changes when the list is tied to what comes next. */
  lemma TyingKeepsList(x: Ind, n: nat, next: Links, ext: Frags, prev: Nbuf, b: Option<Nbuf>)
    requires AllPop(x, n) && ListOf(x, n, next, ext, Some(prev))
    ensures ListOf(x, n, next[prev := b], ext, Some(prev))
  {
    var list, next' := Heads(x, n), next[prev := b];
    forall i: nat | i < |list| - 1 ensures ChainedAt(next', list, i) {
      TyingKeepsLink(x, n, next, b, i);
      assert ChainedAt(next, list, i);
    }
    var p := HeadIsWord(x, n, |list| - 1);
    forall w: nat | w < n ensures Tied(x, next', ext, w) {
      TyingKeepsTied(x, n, next, ext, p, b, w);
    }
  }

  lemma WordsDiffer(x: Ind, n: nat, v: nat, w: nat)
    requires AllPop(x, n) && v < n && w < n && v != w
    ensures Buf(x, v) != Buf(x, w)
  {
    AllPopPrefix(x, v + 1, n);
    AllPopPrefix(x, w + 1, n);
    if v < w {
      Distinct(x, v, w);
    } else {
      Distinct(x, w, v);
    }
  }

  predicate HeadRight(x: Ind, n: nat, head0: Option<Nbuf>, head: Option<Nbuf>) {
    head == if Heads(x, n) == [] then head0 else Some(Heads(x, n)[0])
  }

  lemma HeadStep(x: Ind, s: nat, e: nat, prev: Option<Nbuf>, head0: Option<Nbuf>, head: Option<Nbuf>,
                 head': Option<Nbuf>)
    requires InMsdu(x, s, e) && (prev.None? <==> Heads(x, s) == []) && HeadRight(x, s, head0, head)
    requires head' == if prev.None? && Good(x, s) then Some(Buf(x, s)) else head
    ensures HeadRight(x, e + 1, head0, head')
  {
    HeadsStep(x, s, e);
  }

  /** What a caller finds after success: the list from head to tail reads the good MSDUs' first buffers
      in message order, each with its fragments; without a good MSDU, head is as it was and tail is None. */
  predicate Delivered(x: Ind, n: nat, next: Links, ext: Frags,
                      head0: Option<Nbuf>, head: Option<Nbuf>, tail: Option<Nbuf>)
  {
    var list := Heads(x, n);
    && AllTied(x, next, ext, n)
    && if list == [] then head == head0 && tail == None
       else Reads(next, head, list) && tail == Some(list[|list| - 1])
  }

  lemma DeliveredList(x: Ind, n: nat, next: Links, ext: Frags, prev: Option<Nbuf>,
                      head0: Option<Nbuf>, head: Option<Nbuf>)
    requires ListOf(x, n, next, ext, prev) && PointsTo(next, prev, None) && HeadRight(x, n, head0, head)
    ensures Delivered(x, n, next, ext, head0, head, prev)
  {
    if Heads(x, n) != [] {
      ChainReads(next, Heads(x, n));
    }
  }

  /** How a turn of the loop ends: another MSDU follows, all are taken, or a pop failed within the MSDU
      or behind it. */
  datatype RoundOutcome = More | Finished | FragmentLost | MsduLost

  class MonRx {
    /** Buffers posted to the hardware. */
    var hash: set<Nbuf>
    var fillCnt: int
    /** Links between buffers, and fragment lists. */
    var next: Links
    var ext: Frags
    var freed: seq<Nbuf>

    /** The first `n` words of `x` have been popped. */
    ghost predicate Popped(x: Ind, n: nat)
      reads this
    {
      AllPop(x, n) && hash == HashAfter(x, n)
    }

    method NetbufPop(x: Ind, w: nat) returns (r: Option<Nbuf>)
      requires Popped(x, w)
      modifies this`hash, this`fillCnt
      ensures fillCnt == old(fillCnt) - 1
      ensures r == if Poppable(x, w) then Some(Buf(x, w)) else None
      ensures r.Some? ==> Popped(x, w + 1) && |hash| < |old(hash)|
      ensures r.None? ==> hash == old(hash)
    {
      fillCnt := fillCnt - 1;
      var b := Buf(x, w);
      if b !in hash {
        return None;
      }
      AllPopNext(x, w);
      hash := hash - {b};
      r := Some(b);
    }

    /** Word `e` of the MSDU that starts at `s` is popped. */
    ghost predicate At(x: Ind, s: nat, e: nat)
      reads this
    {
      InMsdu(x, s, e) && Popped(x, e + 1)
    }

    /** Go on to the next word of an MSDU and pop it. */
    method NextFragment(x: Ind, ghost s: nat, e: nat, cnt: nat) returns (r: Option<Nbuf>, cnt': nat)
      requires At(x, s, e) && !Last(x, e)
      modifies this`hash, this`fillCnt
      ensures fillCnt == old(fillCnt) - 1
      ensures r.Some? ==> At(x, s, e + 1) && r.value == Buf(x, e + 1) && cnt' == cnt + 1 && |hash| < |old(hash)|
      ensures r.None? ==> At(x, s, e) && !Poppable(x, e + 1) && cnt' == cnt
    {
      r := NetbufPop(x, e + 1);
      cnt' := if r.None? then cnt else cnt + 1;
    }

    /** Free the buffers of a bad MSDU, `msdu` first. */
    method FreeMsdu(x: Ind, msdu: Nbuf, s: nat, cnt: nat) returns (ok: bool, e: nat, cnt': nat)
      requires At(x, s, s) && msdu == Buf(x, s)
      modifies this`hash, this`fillCnt, this`freed
      ensures At(x, s, e) && cnt' == cnt + (e - s)
      ensures fillCnt == old(fillCnt) - (e - s) - if ok then 0 else 1
      ensures freed == old(freed) + Span(x, s, e + 1)
      ensures ok <==> Last(x, e)
      ensures !ok ==> !Poppable(x, e + 1)
    {
      ok, e, cnt' := true, s, cnt;
      SpanSnoc(x, freed, s, s);
      assert freed + [] == freed;
      freed := freed + [msdu];
      while ok && !Last(x, e)
        invariant At(x, s, e) && cnt' == cnt + (e - s)
        invariant fillCnt == old(fillCnt) - (e - s) - if ok then 0 else 1
        invariant freed == old(freed) + Span(x, s, e + 1)
        invariant !ok ==> !Poppable(x, e + 1) && !Last(x, e)
        decreases ok, |hash|
      {
        var frag: Option<Nbuf>;
        frag, cnt' := NextFragment(x, s, e, cnt');
        ok := frag.Some?;
        if ok {
          SpanSnoc(x, old(freed), s, e + 1);
          freed := freed + [frag.value];
          e := e + 1;
        }
      }
    }

    /** Pop the fragment behind word `e` and link it; the last one is linked to nothing. */
    method LinkFragment(x: Ind, ghost s: nat, e: nat, prevFrag: Nbuf, cnt: nat, ghost next0: Links)
      returns (frag: Option<Nbuf>, cnt': nat)
      requires At(x, s, e) && s < e && !Last(x, e) && prevFrag == Buf(x, e)
      requires Linked(x, s + 1, e, next) && Keeps(x, s + 1, next0, next)
      modifies this`hash, this`fillCnt, this`next
      ensures fillCnt == old(fillCnt) - 1
      ensures frag.Some? ==> At(x, s, e + 1) && frag.value == Buf(x, e + 1) && cnt' == cnt + 1 && |hash| < |old(hash)|
      ensures frag.None? ==> At(x, s, e) && !Poppable(x, e + 1) && cnt' == cnt
      ensures Linked(x, s + 1, if frag.Some? then e + 1 else e, next) && Keeps(x, s + 1, next0, next)
    {
      frag, cnt' := NextFragment(x, s, e, cnt);
      LinkRound(x, s, e, next0, next, frag);
      next := next[prevFrag := frag];
    }

    /** Link the fragments behind the first one, word `s + 1`. */
    method LinkFragments(x: Ind, s: nat, first: Nbuf, cnt: nat) returns (ok: bool, e: nat, cnt': nat)
      requires At(x, s, s + 1) && first == Buf(x, s + 1)
      modifies this`hash, this`fillCnt, this`next
      ensures s < e && At(x, s, e) && cnt' == cnt + (e - s - 1)
      ensures fillCnt == old(fillCnt) - (e - s - 1) - if ok then 0 else 1
      ensures ok <==> Last(x, e)
      ensures !ok ==> !Poppable(x, e + 1)
      ensures ok ==> Linked(x, s + 1, e, next) && Keeps(x, s + 1, old(next), next) && NextAt(next, Buf(x, e)) == None
    {
      var frag, prevFrag := Some(first), first;
      e, cnt' := s + 1, cnt;
      while frag.Some? && !Last(x, e)
        invariant s < e && At(x, s, e) && cnt' == cnt + (e - s - 1) && prevFrag == Buf(x, e)
        invariant fillCnt == old(fillCnt) - (e - s - 1) - if frag.Some? then 0 else 1
        invariant frag.None? ==> !Poppable(x, e + 1) && !Last(x, e)
        invariant Linked(x, s + 1, e, next) && Keeps(x, s + 1, old(next), next)
        decreases frag.Some?, |hash|
      {
        frag, cnt' := LinkFragment(x, s, e, prevFrag, cnt', old(next));
        if frag.Some? {
          prevFrag, e := frag.value, e + 1;
        }
      }
      ok := frag.Some?;
      if ok {
        LinkRound(x, s, e, old(next), next, None);
        next := next[prevFrag := None];
      }
    }

    /** Collect the fragments of a good MSDU that starts with word `s` behind its first buffer. */
    method HandleAmsduPacket(x: Ind, msdu: Nbuf, s: nat, cnt: nat) returns (ok: bool, e: nat, cnt': nat)
      requires At(x, s, s) && !Last(x, s) && msdu == Buf(x, s)
      modifies this`hash, this`fillCnt, this`next, this`ext
      ensures At(x, s, e) && cnt' == cnt + (e - s)
      ensures fillCnt == old(fillCnt) - (e - s) - if ok then 0 else 1
      ensures ok <==> Last(x, e)
      ensures !ok ==> !Poppable(x, e + 1)
      ensures ok ==> Collected(x, s, e, old(next), old(ext), next, ext)
    {
      var frag: Option<Nbuf>;
      frag, cnt' := NextFragment(x, s, s, cnt);
      if frag.None? {
        return false, s, cnt';
      }
      ext := ext[msdu := frag.value];
      ok, e, cnt' := LinkFragments(x, s, frag.value, cnt');
    }

    /** Put a good MSDU behind the list. */
    method TakeGood(x: Ind, msdu: Nbuf, s: nat, ghost prev: Option<Nbuf>, cnt: nat, ghost freed0: seq<Nbuf>)
      returns (ok: bool, e: nat, cnt': nat)
      requires At(x, s, s) && msdu == Buf(x, s) && Good(x, s)
      requires Taken(x, s, next, ext, prev, freed0, freed) && PointsTo(next, prev, Some(msdu))
      modifies this`hash, this`fillCnt, this`next, this`ext
      ensures At(x, s, e) && cnt' == cnt + (e - s)
      ensures fillCnt == old(fillCnt) - (e - s) - if ok then 0 else 1
      ensures ok <==> Last(x, e)
      ensures !ok ==> !Poppable(x, e + 1)
      ensures ok ==> Taken(x, e + 1, next, ext, Some(msdu), freed0, freed)
    {
      if Last(x, s) {
        ok, e, cnt' := true, s, cnt;
      } else {
        ok, e, cnt' := HandleAmsduPacket(x, msdu, s, cnt);
      }
      if ok {
        GoodTaken(x, s, e, old(next), old(ext), next, ext, prev, freed0, freed);
      }
    }

    /** Throw a bad MSDU away; the list stays as it is. */
    method TakeBad(x: Ind, msdu: Nbuf, s: nat, ghost prev: Option<Nbuf>, cnt: nat, ghost freed0: seq<Nbuf>)
      returns (ok: bool, e: nat, cnt': nat)
      requires At(x, s, s) && msdu == Buf(x, s) && !Good(x, s)
      requires Taken(x, s, next, ext, prev, freed0, freed)
      modifies this`hash, this`fillCnt, this`freed
      ensures At(x, s, e) && cnt' == cnt + (e - s)
      ensures fillCnt == old(fillCnt) - (e - s) - if ok then 0 else 1
      ensures ok <==> Last(x, e)
      ensures !ok ==> !Poppable(x, e + 1)
      ensures ok ==> Taken(x, e + 1, next, ext, prev, freed0, freed)
    {
      ok, e, cnt' := FreeMsdu(x, msdu, s, cnt);
      BadTaken(x, s, e, next, ext, prev, freed0, old(freed));
    }

    /** Take the MSDU that starts with word `s`, popped into `msdu`; `prev` ends the list. */
    method TakeMsdu(x: Ind, msdu: Nbuf, s: nat, prev: Option<Nbuf>, cnt: nat, ghost freed0: seq<Nbuf>)
      returns (ok: bool, e: nat, prev': Option<Nbuf>, cnt': nat)
      requires At(x, s, s) && msdu == Buf(x, s)
      requires Taken(x, s, next, ext, prev, freed0, freed) && PointsTo(next, prev, Some(msdu))
      modifies this
      ensures At(x, s, e) && cnt' == cnt + (e - s)
      ensures fillCnt == old(fillCnt) - (e - s) - if ok then 0 else 1
      ensures ok <==> Last(x, e)
      ensures !ok ==> !Poppable(x, e + 1)
      ensures ok ==> Taken(x, e + 1, next, ext, prev', freed0, freed)
    {
      MsduWord(x, s, s);
      if msdu in x.bad {
        prev' := prev;
        ok, e, cnt' := TakeBad(x, msdu, s, prev, cnt, freed0);
      } else {
        prev' := Some(msdu);
        ok, e, cnt' := TakeGood(x, msdu, s, prev, cnt, freed0);
      }
    }

    /** Tie the last buffer of the list, if there is one, to `b`. */
    method SetNext(x: Ind, n: nat, prev: Option<Nbuf>, b: Option<Nbuf>, ghost freed0: seq<Nbuf>)
      requires AllPop(x, n) && Taken(x, n, next, ext, prev, freed0, freed)
      modifies this`next
      ensures Taken(x, n, next, ext, prev, freed0, freed) && PointsTo(next, prev, b)
    {
      if prev.Some? {
        TyingKeepsList(x, n, next, ext, prev.value, b);
        next := next[prev.value := b];
      }
    }

    /** `n` words are popped, and both counters say so. */
    ghost predicate Counted(x: Ind, n: nat, cnt: nat, fill0: int)
      reads this
    {
      Popped(x, n) && cnt == n && fillCnt == fill0 - n
    }

    /** Between two turns: word `s` is popped into `msdu`, and `left` MSDUs, its own included, remain. */
    ghost predicate Going(x: Ind, count: nat, left: nat, s: nat, msdu: Nbuf, head: Option<Nbuf>, prev: Option<Nbuf>,
                          head0: Option<Nbuf>, freed0: seq<Nbuf>)
      reads this
    {
      && Starts(x, s) && msdu == Buf(x, s) && 0 < left <= count && Ends(x, s) == count - left
      && Taken(x, s, next, ext, prev, freed0, freed) && PointsTo(next, prev, Some(msdu))
      && HeadRight(x, s, head0, head)
    }

    /** One turn of the loop, up to word `e`. */
    method Turn(x: Ind, ghost count: nat, ghost left: nat, s: nat, msdu: Nbuf, head: Option<Nbuf>, prev: Option<Nbuf>,
                cnt: nat,
                ghost head0: Option<Nbuf>, ghost freed0: seq<Nbuf>, ghost fill0: int)
      returns (ok: bool, e: nat, head': Option<Nbuf>, prev': Option<Nbuf>, cnt': nat)
      requires Counted(x, s + 1, cnt, fill0) && Going(x, count, left, s, msdu, head, prev, head0, freed0)
      modifies this
      ensures cnt' == e + 1 && Popped(x, e + 1) && fillCnt == fill0 - (e + 1) - if ok then 0 else 1
      ensures Ends(x, e + 1) == count - left + if ok then 1 else 0
      ensures !ok ==> !Poppable(x, e + 1)
      ensures ok ==> Last(x, e) && Taken(x, e + 1, next, ext, prev', freed0, freed) && HeadRight(x, e + 1, head0, head')
    {
      MsduWord(x, s, s);
      assert prev.None? <==> Heads(x, s) == [];
      head' := if prev.None? && msdu !in x.bad then Some(msdu) else head;
      ok, e, prev', cnt' := TakeMsdu(x, msdu, s, prev, cnt, freed0);
      MsduEnds(x, s, e);
      HeadStep(x, s, e, prev, head0, head, head');
    }

    /** Pop the buffers that the indication names for `count` MSDUs. `n` is how many words popped. */
    method RxInOrderPop(x: Ind, count: nat, head0: Option<Nbuf>, tail0: Option<Nbuf>)
      returns (ok: bool, head: Option<Nbuf>, tail: Option<Nbuf>, replenish: nat, n: nat)
      requires hash == x.posted && forall b :: b in hash ==> b !in ext
      modifies this
      ensures Popped(x, n) && replenish == n && fillCnt == old(fillCnt) - n - if ok then 0 else 1
      ensures ok ==> Complete(x, count, n)
      ensures ok <==> exists m: nat :: Complete(x, count, m) && AllPop(x, m)
      ensures ok && count == 0 ==>
                head == head0 && tail == tail0 && next == old(next) && ext == old(ext) && freed == old(freed)
      ensures ok && count > 0 ==> Delivered(x, n, next, ext, head0, head, tail) && freed == old(freed) + BadBufs(x, n)
    {
      head, tail, replenish, n := head0, tail0, 0, 0;
      var first := NetbufPop(x, 0);
      if first.None? {
        NeverCompletes(x, count, 0);
        return false, head, None, replenish, n;
      }
      replenish, n := 1, 1;
      if count == 0 {
        assert Complete(x, count, n) && AllPop(x, n);
        return true, head, tail, replenish, n;
      }
      assert old(freed) + [] == old(freed);
      assert Bare(x, 0, ext) by {
        assert forall b: Nbuf :: BareAt(x, 0, ext, b);
      }
      ok, head, tail, replenish, n := PopRest(x, count, first.value, head0, tail0, old(freed), old(fillCnt));
      if ok {
        assert Complete(x, count, n) && AllPop(x, n);
      } else {
        NeverCompletes(x, count, n);
      }
    }

    /** The loop, entered with the first word popped. */
    method PopRest(x: Ind, count: nat, first: Nbuf, head0: Option<Nbuf>, tail0: Option<Nbuf>,
                   ghost freed0: seq<Nbuf>, ghost fill0: int)
      returns (ok: bool, head: Option<Nbuf>, tail: Option<Nbuf>, cnt: nat, n: nat)
      requires Counted(x, 1, 1, fill0) && Going(x, count, count, 0, first, head0, None, head0, freed0)
      modifies this
      ensures n > 0 && Popped(x, n) && cnt == n && fillCnt == fill0 - n - if ok then 0 else 1
      ensures ok ==> Complete(x, count, n)
      ensures !ok ==> !Poppable(x, n) && Ends(x, n) < count
      ensures ok ==> Delivered(x, n, next, ext, head0, head, tail) && freed == freed0 + BadBufs(x, n)
    {
      head, tail, cnt, n := head0, tail0, 1, 0;
      var msdu, prev: Option<Nbuf>, left: nat := first, None, count;
      var outcome := More;
      while outcome == More
        invariant outcome == More ==>
                    Counted(x, n + 1, cnt, fill0) && Going(x, count, left, n, msdu, head, prev, head0, freed0)
        invariant outcome != More ==> n > 0 && Popped(x, n) && cnt == n
        invariant outcome == Finished ==>
                    && fillCnt == fill0 - n && Complete(x, count, n)
                    && Delivered(x, n, next, ext, head0, head, prev) && freed == freed0 + BadBufs(x, n)
        invariant outcome == FragmentLost || outcome == MsduLost ==>
                    fillCnt == fill0 - n - 1 && !Poppable(x, n) && Ends(x, n) < count
        decreases left, outcome == More
      {
        outcome, n, msdu, head, prev, cnt := Round(x, count, left, n, msdu, head, prev, cnt, head0, freed0, fill0);
        left := left - 1;
      }
      ok := outcome == Finished;
      if outcome == Finished {
        tail := prev;
      } else if outcome == MsduLost {
        tail := None;
      }
    }

    /** One turn of the loop and the pop that follows it. */
    method Round(x: Ind, ghost count: nat, left: nat, s: nat, msdu: Nbuf, head: Option<Nbuf>, prev: Option<Nbuf>,
                 cnt: nat,
                 ghost head0: Option<Nbuf>, ghost freed0: seq<Nbuf>, ghost fill0: int)
      returns (outcome: RoundOutcome, n: nat, msdu': Nbuf, head': Option<Nbuf>, prev': Option<Nbuf>, cnt': nat)
      requires Counted(x, s + 1, cnt, fill0) && Going(x, count, left, s, msdu, head, prev, head0, freed0)
      modifies this
      ensures outcome == More ==>
                && left > 1 && Counted(x, n + 1, cnt', fill0)
                && Going(x, count, left - 1, n, msdu', head', prev', head0, freed0)
      ensures outcome != More ==> n > 0 && Popped(x, n) && cnt' == n
      ensures outcome == Finished ==>
                && fillCnt == fill0 - n && Complete(x, count, n)
                && Delivered(x, n, next, ext, head0, head', prev') && freed == freed0 + BadBufs(x, n)
      ensures outcome == FragmentLost || outcome == MsduLost ==>
                fillCnt == fill0 - n - 1 && !Poppable(x, n) && Ends(x, n) < count
    {
      msdu' := msdu;
      var ok: bool, e: nat;
      ok, e, head', prev', cnt' := Turn(x, count, left, s, msdu, head, prev, cnt, head0, freed0, fill0);
      n := e + 1;
      if !ok {
        outcome := FragmentLost;
      } else if left == 1 {
        outcome := Finished;
        Finish(x, n, head', prev', head0, freed0);
      } else {
        var nx: Option<Nbuf>;
        nx, cnt' := NextMsdu(x, count, left - 1, n, head', prev', cnt', head0, freed0, fill0);
        if nx.None? {
          outcome := MsduLost;
        } else {
          outcome, msdu' := More, nx.value;
        }
      }
    }

    /** End the list. */
    method Finish(x: Ind, n: nat, ghost head: Option<Nbuf>, prev: Option<Nbuf>, ghost head0: Option<Nbuf>,
                  ghost freed0: seq<Nbuf>)
      requires AllPop(x, n) && Taken(x, n, next, ext, prev, freed0, freed) && HeadRight(x, n, head0, head)
      modifies this`next
      ensures Delivered(x, n, next, ext, head0, head, prev) && freed == freed0 + BadBufs(x, n)
    {
      SetNext(x, n, prev, None, freed0);
      DeliveredList(x, n, next, ext, prev, head0, head);
    }

    /** Go on to the next MSDU: pop its first word and tie the list to it. */
    method NextMsdu(x: Ind, ghost count: nat, ghost left: nat, n: nat, ghost head: Option<Nbuf>, prev: Option<Nbuf>,
                    cnt: nat,
                    ghost head0: Option<Nbuf>, ghost freed0: seq<Nbuf>, ghost fill0: int)
      returns (nx: Option<Nbuf>, cnt': nat)
      requires Counted(x, n, cnt, fill0) && n > 0 && Last(x, n - 1) && 0 < left <= count && Ends(x, n) == count - left
      requires Taken(x, n, next, ext, prev, freed0, freed) && HeadRight(x, n, head0, head)
      modifies this`hash, this`fillCnt, this`next
      ensures nx.None? ==> Popped(x, n) && cnt' == cnt && fillCnt == fill0 - n - 1 && !Poppable(x, n)
      ensures nx.Some? ==>
                && Counted(x, n + 1, cnt', fill0)
                && Going(x, count, left, n, nx.value, head, prev, head0, freed0)
    {
      nx := NetbufPop(x, n);
      cnt' := cnt;
      if nx.Some? {
        SetNext(x, n, prev, nx, freed0);
        cnt' := cnt + 1;
      }
    }
  }
}
