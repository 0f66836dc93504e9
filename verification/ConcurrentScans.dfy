/**
  Scans of several operations under insertions: what a reader has stood on after a series of
  seeks with `next` calls between them, and after `seekToLast` followed by `prev` calls,
  measured against the nodes that were present when the whole scan began.
 */
module ConcurrentScans {
  import opened Wrappers
  import opened Order
  import opened ConcurrentSkipList
  import opened ConcurrentReads

  /** A positioning operation of the reader, and everything that happens until its next one. */
  datatype Turn<K> = Turn(op: Op<K>, post: seq<Action<K>>)

  ghost predicate LegalTurn<K(!new)>(cmp: (K, K) -> int, s: State<K>, r: nat, t: Turn<K>) {
    && Enabled(cmp, s, BeginOp(r, t.op))
    && Legal(cmp, Step(cmp, s, BeginOp(r, t.op)), t.post) && NoNewOp(t.post, r)
  }

  ghost function AfterTurn<K(!new)>(cmp: (K, K) -> int, s: State<K>, r: nat, t: Turn<K>): State<K>
    requires LegalTurn(cmp, s, r, t)
  {
    Run(cmp, Step(cmp, s, BeginOp(r, t.op)), t.post)
  }

  ghost predicate LegalTurns<K(!new)>(cmp: (K, K) -> int, s: State<K>, r: nat, ts: seq<Turn<K>>)
    decreases |ts|
  {
    ts == [] || (LegalTurn(cmp, s, r, ts[0]) && LegalTurns(cmp, AfterTurn(cmp, s, r, ts[0]), r, ts[1..]))
  }

  ghost function AfterTurns<K(!new)>(cmp: (K, K) -> int, s: State<K>, r: nat, ts: seq<Turn<K>>): State<K>
    requires LegalTurns(cmp, s, r, ts)
    decreases |ts|
  {
    if ts == [] then s else AfterTurns(cmp, AfterTurn(cmp, s, r, ts[0]), r, ts[1..])
  }

  /** The nodes the reader has stood on in these turns, in order. */
  ghost function Trail<K(!new)>(cmp: (K, K) -> int, s: State<K>, r: nat, ts: seq<Turn<K>>): seq<nat>
    requires LegalTurns(cmp, s, r, ts)
    decreases |ts|
  {
    if ts == [] then []
    else
      var s1 := AfterTurn(cmp, s, r, ts[0]);
      (if r < |s1.readers| then s1.readers[r].seen else []) + Trail(cmp, s1, r, ts[1..])
  }

  lemma TurnKeepsInv<K(!new)>(cmp: (K, K) -> int, s: State<K>, ch: seq<seq<nat>>, r: nat, t: Turn<K>)
      returns (ch': seq<seq<nat>>)
    requires TotalPreorder(cmp) && Inv(cmp, s, ch) && LegalTurn(cmp, s, r, t)
    ensures var e := AfterTurn(cmp, s, r, t);
            && Inv(cmp, e, ch') && KeysStay(s.sh, e.sh) && Present(s.sh) <= Present(e.sh) && Grew(s, e)
            && r < |e.readers| && e.readers[r].snapshot == Present(s.sh) && e.readers[r].op == t.op
  {
    hide TotalPreorder, Inv, Enabled, Legal, Step, Run, Present, NoNewOp, KeysStay;
    ch' := OpKeepsInv(cmp, s, ch, r, t.op, t.post);
  }

  /** The node a reader stands on. */
  function Node<K>(s: State<K>, r: nat): Option<nat> {
    if r < |s.readers| && s.readers[r].pc.At? then s.readers[r].pc.node else None
  }

  predicate Done<K>(s: State<K>, r: nat) {
    r < |s.readers| && s.readers[r].pc.At?
  }

  /** Of two present nodes the keys tell which is which. */
  lemma SameKeySameNode<K(!new)>(cmp: (K, K) -> int, s: State<K>, ch: seq<seq<nat>>, n: nat, m: nat)
    requires TotalPreorder(cmp) && Inv(cmp, s, ch) && n in Present(s.sh) && m in Present(s.sh)
    ensures HasKey(s.sh, n) && HasKey(s.sh, m)
    ensures cmp(Key(s.sh, n), Key(s.sh, m)) == 0 ==> n == m
  {
    hide TotalPreorder, Present, LinkAt, WriterInv, ReaderInv, Complete;
    PresentIsBottom(cmp, s.sh, ch[0]);
    var i :| 0 <= i < |ch[0]| && ch[0][i] == n;
    var j :| 0 <= j < |ch[0]| && ch[0][j] == m;
    assert Chain(cmp, s.sh, ch[0], 0);
    ChainOrder(cmp, s.sh, ch[0], 0, i, j);
  }

  // ----- backward

  /** Node `n` has a smaller key than the node stood on. */
  ghost predicate Behind<K>(cmp: (K, K) -> int, sh: Shared<K>, node: Option<nat>, n: nat) {
    node.Some? && HasKey(sh, node.value) && HasKey(sh, n) && cmp(Key(sh, n), Key(sh, node.value)) < 0
  }

  /** Nodes in strictly descending key order. */
  ghost predicate Descends<K>(cmp: (K, K) -> int, sh: Shared<K>, p: seq<nat>) {
    && (forall i :: 0 <= i < |p| ==> HasKey(sh, p[i]))
    && (forall i, j :: 0 <= i < j < |p| ==> cmp(Key(sh, p[j]), Key(sh, p[i])) < 0)
  }

  predicate Prevs<K>(ts: seq<Turn<K>>, r: nat) {
    forall i :: 0 <= i < |ts| ==> ts[i].op.Prev? && NoNext(ts[i].post, r)
  }

  /** From state `s` on the reader has gone down over `trail`: it stood on descending nodes that
      are in the list, and every node of `all` behind it was stood on or is still behind it. */
  ghost predicate WentBack<K(!new)>(cmp: (K, K) -> int, s: State<K>, e: State<K>, r: nat, trail: seq<nat>,
                                    all: set<nat>) {
    && Descends(cmp, e.sh, trail)
    && (forall n :: n in trail ==> n in Present(e.sh) && Behind(cmp, e.sh, Node(s, r), n))
    && (Done(e, r) ==> forall n :: n in all && Behind(cmp, s.sh, Node(s, r), n) ==>
          n in trail || Behind(cmp, e.sh, Node(e, r), n))
  }

  ghost predicate Grew<K>(s: State<K>, e: State<K>) {
    KeysStay(s.sh, e.sh) && Present(s.sh) <= Present(e.sh)
  }

  function AsSeq(node: Option<nat>): seq<nat> {
    if node.Some? then [node.value] else []
  }

  lemma FreshTurn<K(!new)>(cmp: (K, K) -> int, s: State<K>, r: nat, t: Turn<K>)
    requires LegalTurn(cmp, s, r, t) && NoNext(t.post, r)
    ensures var e := AfterTurn(cmp, s, r, t); r < |e.readers| && Fresh(e.readers[r])
  {
    var b := Step(cmp, s, BeginOp(r, t.op));
    assert r < |b.readers| && Fresh(b.readers[r]);
    hide Enabled, Step, Legal, Run;
    StaysFresh(cmp, b, t.post, r);
  }

  /** One `prev()`. */
  lemma PrevTurn<K(!new)>(cmp: (K, K) -> int, s: State<K>, ch: seq<seq<nat>>, r: nat, t: Turn<K>)
      returns (ch': seq<seq<nat>>)
    requires TotalPreorder(cmp) && Inv(cmp, s, ch) && LegalTurn(cmp, s, r, t) && t.op.Prev? && NoNext(t.post, r)
    ensures var e := AfterTurn(cmp, s, r, t);
            && Inv(cmp, e, ch') && Grew(s, e) && Done(s, r)
            && r < |e.readers| && e.readers[r].seen == AsSeq(Node(e, r))
            && WentBack(cmp, s, e, r, AsSeq(Node(e, r)), Present(s.sh))
  {
    hide *;
    ch' := TurnKeepsInv(cmp, s, ch, r, t);
    var e := AfterTurn(cmp, s, r, t);
    FreshTurn(cmp, s, r, t);
    PrevStarts(cmp, s, r, t);
    PrevEnds(cmp, e, ch', r);
    PrevGoesBack(cmp, s, e, r, t.op.key);
  }

  lemma PrevStarts<K(!new)>(cmp: (K, K) -> int, s: State<K>, r: nat, t: Turn<K>)
    requires LegalTurn(cmp, s, r, t) && t.op.Prev?
    ensures Done(s, r) && Node(s, r).Some? && HasKey(s.sh, Node(s, r).value)
            && t.op.key == Key(s.sh, Node(s, r).value)
  {
    hide Legal, Step;
  }

  lemma PrevGoesBack<K(!new)>(cmp: (K, K) -> int, s: State<K>, e: State<K>, r: nat, k: K)
    requires KeysStay(s.sh, e.sh) && Node(s, r).Some? && HasKey(s.sh, Node(s, r).value)
             && k == Key(s.sh, Node(s, r).value)
    requires forall n :: n in Present(s.sh) ==> HasKey(e.sh, n)
    requires var x := Node(e, r);
             && (x.Some? ==> x.value in Present(e.sh) && HasKey(e.sh, x.value) && cmp(Key(e.sh, x.value), k) < 0)
             && (Done(e, r) ==> forall n :: n in Present(s.sh) && cmp(Key(e.sh, n), k) < 0 ==>
                   n in AsSeq(x) || Behind(cmp, e.sh, x, n))
    ensures WentBack(cmp, s, e, r, AsSeq(Node(e, r)), Present(s.sh))
  {
    hide Present, Node, Done;
  }

  /** Where `prev()` ends. */
  lemma PrevEnds<K(!new)>(cmp: (K, K) -> int, e: State<K>, ch: seq<seq<nat>>, r: nat)
    requires TotalPreorder(cmp) && Inv(cmp, e, ch) && r < |e.readers| && Fresh(e.readers[r])
    requires e.readers[r].op.Prev? && e.readers[r].snapshot <= Present(e.sh)
    ensures var rd, x := e.readers[r], Node(e, r);
            && rd.seen == AsSeq(x)
            && (forall n :: n in rd.snapshot ==> HasKey(e.sh, n))
            && (x.Some? ==>
                  x.value in Present(e.sh) && HasKey(e.sh, x.value) && cmp(Key(e.sh, x.value), rd.op.key) < 0)
            && (Done(e, r) ==> forall n :: n in rd.snapshot && cmp(Key(e.sh, n), rd.op.key) < 0 ==>
                  n in AsSeq(x) || Behind(cmp, e.sh, x, n))
  {
    hide Inv, Present, TotalPreorder;
    UnpackReader(cmp, e, ch, r);
    var rd := e.readers[r];
    forall n | Done(e, r) && n in rd.snapshot && cmp(Key(e.sh, n), rd.op.key) < 0
      ensures n in AsSeq(Node(e, r)) || Behind(cmp, e.sh, Node(e, r), n)
    {
      SameKeySameNode(cmp, e, ch, n, rd.seen[0]);
    }
  }

  lemma DescendsMore<K>(cmp: (K, K) -> int, sh: Shared<K>, x: Option<nat>, rest: seq<nat>)
    requires x.Some? ==> HasKey(sh, x.value)
    requires Descends(cmp, sh, rest) && forall n :: n in rest ==> Behind(cmp, sh, x, n)
    ensures Descends(cmp, sh, AsSeq(x) + rest)
  {
    var p := AsSeq(x) + rest;
    if x.Some? {
      forall j | 1 <= j < |p|
        ensures HasKey(sh, p[j]) && cmp(Key(sh, p[j]), Key(sh, x.value)) < 0
      {
        assert p[j] == rest[j - 1] && rest[j - 1] in rest;
      }
    } else {
      assert p == rest;
    }
  }

  lemma WentBackMore<K(!new)>(cmp: (K, K) -> int, s: State<K>, s1: State<K>, e: State<K>, r: nat, rest: seq<nat>,
                              all: set<nat>)
    requires TotalPreorder(cmp) && Grew(s1, e) && (Done(e, r) ==> Done(s1, r))
    requires WentBack(cmp, s, s1, r, AsSeq(Node(s1, r)), all) && WentBack(cmp, s1, e, r, rest, all)
    ensures WentBack(cmp, s, e, r, AsSeq(Node(s1, r)) + rest, all)
  {
    hide TotalPreorder, Present, Done, Node;
    var x := Node(s1, r);
    if x.Some? {
      assert x.value in AsSeq(x);
      assert Behind(cmp, e.sh, Node(s, r), x.value);
    }
    forall n | n in rest
      ensures Behind(cmp, e.sh, Node(s, r), n)
    {
      LtLe(cmp, Key(e.sh, n), Key(e.sh, x.value), Key(e.sh, Node(s, r).value));
    }
    DescendsMore(cmp, e.sh, x, rest);
    hide Descends;
  }

  lemma DoneBefore<K(!new)>(cmp: (K, K) -> int, s: State<K>, r: nat, ts: seq<Turn<K>>)
    requires LegalTurns(cmp, s, r, ts) && Done(AfterTurns(cmp, s, r, ts), r)
    ensures Done(s, r)
  {
  }

  lemma WentNowhere<K(!new)>(cmp: (K, K) -> int, s: State<K>, r: nat, all: set<nat>)
    ensures Grew(s, s) && WentBack(cmp, s, s, r, [], all)
  {
    hide Present;
  }

  lemma GrewMore<K>(s: State<K>, s1: State<K>, e: State<K>)
    requires Grew(s, s1) && Grew(s1, e)
    ensures Grew(s, e)
  {
    hide Present;
  }

  lemma WentBackFewer<K(!new)>(cmp: (K, K) -> int, s: State<K>, e: State<K>, r: nat, trail: seq<nat>, all: set<nat>,
                               some: set<nat>)
    requires WentBack(cmp, s, e, r, trail, all) && some <= all
    ensures WentBack(cmp, s, e, r, trail, some)
  {
    hide Present, Behind, Done, Descends;
  }

  /** A series of `prev()` calls passes over no node of `all` on its way down. */
  lemma {:induction false} PrevsMissNothing<K(!new)>(cmp: (K, K) -> int, s: State<K>, ch: seq<seq<nat>>, r: nat,
                                                     ts: seq<Turn<K>>,
                                                     all: set<nat>)
      returns (ch': seq<seq<nat>>)
    requires TotalPreorder(cmp) && Inv(cmp, s, ch) && LegalTurns(cmp, s, r, ts) && Prevs(ts, r)
             && all <= Present(s.sh)
    ensures var e := AfterTurns(cmp, s, r, ts);
            Inv(cmp, e, ch') && Grew(s, e) && WentBack(cmp, s, e, r, Trail(cmp, s, r, ts), all)
    decreases |ts|
  {
    hide TotalPreorder, Inv, Present, LegalTurn, AfterTurn, WentBack, Done, Node, AsSeq;
    if ts == [] {
      ch' := ch;
      WentNowhere(cmp, s, r, all);
    } else {
      var ch1 := PrevTurn(cmp, s, ch, r, ts[0]);
      var s1 := AfterTurn(cmp, s, r, ts[0]);
      ch' := PrevsMissNothing(cmp, s1, ch1, r, ts[1..], all);
      var e := AfterTurns(cmp, s1, r, ts[1..]);
      GrewMore(s, s1, e);
      if Done(e, r) { DoneBefore(cmp, s1, r, ts[1..]); }
      WentBackFewer(cmp, s, s1, r, AsSeq(Node(s1, r)), Present(s.sh), all);
      WentBackMore(cmp, s, s1, e, r, Trail(cmp, s1, r, ts[1..]), all);
    }
  }

  /** A whole backward scan under insertions, `seekToLast` and then `prev` again and again:
      the nodes stood on are in the list and descend, and every node present when the scan
      began was stood on or lies below; at the end of the scan none lies below. */
  lemma BackwardScanMissesNothing<K(!new)>(cmp: (K, K) -> int, s: State<K>, pre: seq<Action<K>>, r: nat,
                                           first: seq<Action<K>>, ts: seq<Turn<K>>)
    requires TotalPreorder(cmp) && Initial(s) && Legal(cmp, s, pre)
    requires LegalTurn(cmp, Run(cmp, s, pre), r, Turn(SeekToLast, first)) && NoNext(first, r)
    requires LegalTurns(cmp, AfterTurn(cmp, Run(cmp, s, pre), r, Turn(SeekToLast, first)), r, ts) && Prevs(ts, r)
    ensures var b := Run(cmp, s, pre);
            var all := [Turn(SeekToLast, first)] + ts;
            && LegalTurns(cmp, b, r, all)
            && var e := AfterTurns(cmp, b, r, all);
               var trail := Trail(cmp, b, r, all);
               && Descends(cmp, e.sh, trail) && (forall n :: n in trail ==> n in Present(e.sh))
               && (Done(e, r) ==> forall n :: n in Present(b.sh) ==> n in trail || Behind(cmp, e.sh, Node(e, r), n))
               && (Done(e, r) && Node(e, r).None? ==> forall n :: n in Present(b.sh) ==> n in trail)
  {
    var ch0 := InitInv(cmp, s);
    var ch := RunKeepsInv(cmp, s, pre, ch0);
    var b := Run(cmp, s, pre);
    var t := Turn(SeekToLast, first);
    assert ([t] + ts)[1..] == ts && ([t] + ts)[0] == t;
    var s1 := AfterTurn(cmp, b, r, t);
    hide TotalPreorder, Initial, Inv, Present, Legal, Run, LegalTurn, AfterTurn, WentBack, Done, Node, AsSeq, Behind,
         Descends;
    var ch1 := LastTurn(cmp, b, ch, r, t);
    var ch2 := PrevsMissNothing(cmp, s1, ch1, r, ts, Present(b.sh));
    var e := AfterTurns(cmp, s1, r, ts);
    if Done(e, r) { DoneBefore(cmp, s1, r, ts); }
    BackFromLast(cmp, s1, e, r, Trail(cmp, s1, r, ts), Present(b.sh));
  }

  lemma LastTurn<K(!new)>(cmp: (K, K) -> int, s: State<K>, ch: seq<seq<nat>>, r: nat, t: Turn<K>)
      returns (ch': seq<seq<nat>>)
    requires TotalPreorder(cmp) && Inv(cmp, s, ch) && LegalTurn(cmp, s, r, t) && t.op.SeekToLast? && NoNext(t.post, r)
    ensures var e := AfterTurn(cmp, s, r, t);
            && Inv(cmp, e, ch') && Grew(s, e)
            && r < |e.readers| && e.readers[r].seen == AsSeq(Node(e, r))
            && (forall n :: n in AsSeq(Node(e, r)) ==> HasKey(e.sh, n) && n in Present(e.sh))
            && (Done(e, r) ==> forall n :: n in Present(s.sh) ==>
                  n in AsSeq(Node(e, r)) || Behind(cmp, e.sh, Node(e, r), n))
  {
    hide Inv, Present, TotalPreorder, Enabled, NoNext, LegalTurn, AfterTurn;
    ch' := TurnKeepsInv(cmp, s, ch, r, t);
    var e := AfterTurn(cmp, s, r, t);
    FreshTurn(cmp, s, r, t);
    UnpackReader(cmp, e, ch', r);
    forall n | Done(e, r) && n in Present(s.sh)
      ensures n in AsSeq(Node(e, r)) || Behind(cmp, e.sh, Node(e, r), n)
    {
      SameKeySameNode(cmp, e, ch', n, e.readers[r].seen[0]);
    }
  }

  lemma BackFromLast<K(!new)>(cmp: (K, K) -> int, s1: State<K>, e: State<K>, r: nat, rest: seq<nat>, all: set<nat>)
    requires Grew(s1, e) && WentBack(cmp, s1, e, r, rest, all) && (Done(e, r) ==> Done(s1, r))
    requires forall n :: n in AsSeq(Node(s1, r)) ==> HasKey(s1.sh, n) && n in Present(s1.sh)
    requires Done(s1, r) ==> forall n :: n in all ==> n in AsSeq(Node(s1, r)) || Behind(cmp, s1.sh, Node(s1, r), n)
    ensures var trail := AsSeq(Node(s1, r)) + rest;
            && Descends(cmp, e.sh, trail) && (forall n :: n in trail ==> n in Present(e.sh))
            && (Done(e, r) ==> forall n :: n in all ==> n in trail || Behind(cmp, e.sh, Node(e, r), n))
            && (Done(e, r) && Node(e, r).None? ==> forall n :: n in all ==> n in trail)
  {
    hide Present, Done;
    var x := Node(s1, r);
    if x.Some? { assert x.value in AsSeq(x); }
    DescendsMore(cmp, e.sh, x, rest);
    hide Descends;
  }

  // ----- forward, with further seeks

  /** Node `n` has a larger key than the node stood on. */
  ghost predicate InFront<K>(cmp: (K, K) -> int, sh: Shared<K>, node: Option<nat>, n: nat) {
    node.Some? && HasKey(sh, node.value) && HasKey(sh, n) && cmp(Key(sh, node.value), Key(sh, n)) < 0
  }

  ghost predicate Ascends<K>(cmp: (K, K) -> int, sh: Shared<K>, p: seq<nat>) {
    && (forall i :: 0 <= i < |p| ==> HasKey(sh, p[i]))
    && (forall i, j :: 0 <= i < j < |p| ==> cmp(Key(sh, p[i]), Key(sh, p[j])) < 0)
  }

  /** Every turn seeks a target above the node stood on. */
  ghost predicate Onward<K(!new)>(cmp: (K, K) -> int, s: State<K>, r: nat, ts: seq<Turn<K>>)
    requires LegalTurns(cmp, s, r, ts)
    decreases |ts|
  {
    ts == [] ||
    (&& ts[0].op.Seek? && Below(cmp, s.sh, Node(s, r), ts[0].op.target)
     && Onward(cmp, AfterTurn(cmp, s, r, ts[0]), r, ts[1..]))
  }

  ghost predicate Below<K>(cmp: (K, K) -> int, sh: Shared<K>, node: Option<nat>, k: K) {
    node.Some? && KeyBelow(cmp, sh, node.value, k)
  }

  /** The nodes of `all` that a seek to `t` jumps over: between the node left and the target. */
  ghost function Over<K>(cmp: (K, K) -> int, s: State<K>, r: nat, t: K, all: set<nat>): set<nat> {
    set n | n in all && InFront(cmp, s.sh, Node(s, r), n) && KeyBelow(cmp, s.sh, n, t)
  }

  /** The nodes of `all` that some seek of these turns jumps over. */
  ghost function Jumped<K(!new)>(cmp: (K, K) -> int, s: State<K>, r: nat, ts: seq<Turn<K>>, all: set<nat>): set<nat>
    requires LegalTurns(cmp, s, r, ts)
    decreases |ts|
  {
    if ts == [] then {}
    else
      (if ts[0].op.Seek? then Over(cmp, s, r, ts[0].op.target, all) else {})
      + Jumped(cmp, AfterTurn(cmp, s, r, ts[0]), r, ts[1..], all)
  }

  /** The reader stood on ascending nodes that are in the list, at or above `t`; and every node
      of `all` at or above `t` was stood on, was jumped over, or is still ahead. */
  ghost predicate FoundFrom<K(!new)>(cmp: (K, K) -> int, e: State<K>, r: nat, t: K, trail: seq<nat>, all: set<nat>,
                                     jumped: set<nat>) {
    && Ascends(cmp, e.sh, trail)
    && (forall n :: n in trail ==> n in Present(e.sh) && HasKey(e.sh, n) && cmp(t, Key(e.sh, n)) <= 0)
    && (forall n :: n in all ==> HasKey(e.sh, n))
    && (Done(e, r) ==> forall n :: n in all && cmp(t, Key(e.sh, n)) <= 0 ==>
          n in trail || n in jumped || InFront(cmp, e.sh, Node(e, r), n))
  }

  /** The same from the node stood on in `s`. */
  ghost predicate WentOn<K(!new)>(cmp: (K, K) -> int, s: State<K>, e: State<K>, r: nat, trail: seq<nat>,
                                  all: set<nat>, jumped: set<nat>) {
    && Ascends(cmp, e.sh, trail)
    && (forall n :: n in trail ==> n in Present(e.sh) && InFront(cmp, e.sh, Node(s, r), n))
    && (Done(e, r) ==> forall n :: n in all && InFront(cmp, s.sh, Node(s, r), n) ==>
          n in trail || n in jumped || InFront(cmp, e.sh, Node(e, r), n))
  }

  predicate EndsAt(trail: seq<nat>, node: Option<nat>) {
    node.Some? ==> trail != [] && trail[|trail| - 1] == node.value
  }

  /** One seek and its `next` calls. */
  lemma SeekTurn<K(!new)>(cmp: (K, K) -> int, s: State<K>, ch: seq<seq<nat>>, r: nat, t: Turn<K>)
      returns (ch': seq<seq<nat>>)
    requires TotalPreorder(cmp) && Inv(cmp, s, ch) && LegalTurn(cmp, s, r, t) && t.op.Seek?
    ensures var e := AfterTurn(cmp, s, r, t);
            && Inv(cmp, e, ch') && Grew(s, e) && r < |e.readers| && EndsAt(e.readers[r].seen, Node(e, r))
            && (Node(e, r).Some? ==> Done(e, r))
            && (e.readers[r].seen != [] ==> Done(e, r))
            && FoundFrom(cmp, e, r, t.op.target, e.readers[r].seen, Present(s.sh), {})
  {
    hide Inv, Present, TotalPreorder, Enabled, LegalTurn, AfterTurn, Grew;
    ch' := TurnKeepsInv(cmp, s, ch, r, t);
    SeekEnds(cmp, AfterTurn(cmp, s, r, t), ch', r);
  }

  lemma SeekEnds<K(!new)>(cmp: (K, K) -> int, e: State<K>, ch: seq<seq<nat>>, r: nat)
    requires TotalPreorder(cmp) && Inv(cmp, e, ch) && r < |e.readers| && e.readers[r].op.Seek?
    ensures var rd := e.readers[r];
            && EndsAt(rd.seen, Node(e, r)) && (rd.seen != [] ==> Done(e, r))
            && FoundFrom(cmp, e, r, rd.op.target, rd.seen, rd.snapshot, {})
  {
    hide Inv, Present, TotalPreorder;
    UnpackReader(cmp, e, ch, r);
  }

  /** A turn and what follows it: ascending first up to the node the turn ended at, then above it. */
  lemma AscendsMore<K(!new)>(cmp: (K, K) -> int, sh1: Shared<K>, sh: Shared<K>, x: Option<nat>, p: seq<nat>,
                             q: seq<nat>)
    requires TotalPreorder(cmp) && KeysStay(sh1, sh) && Ascends(cmp, sh1, p) && Ascends(cmp, sh, q) && EndsAt(p, x)
    requires forall n :: n in q ==> InFront(cmp, sh, x, n)
    ensures Ascends(cmp, sh, p + q)
  {
    hide TotalPreorder;
    forall i, j | 0 <= i < |p| && 0 <= j < |q|
      ensures cmp(Key(sh, p[i]), Key(sh, q[j])) < 0
    {
      assert q[j] in q && InFront(cmp, sh, x, q[j]);
      if i < |p| - 1 { LtLe(cmp, Key(sh, p[i]), Key(sh, x.value), Key(sh, q[j])); }
    }
  }

  /** What was found from a target on, after further turns. */
  lemma FoundMore<K(!new)>(cmp: (K, K) -> int, s1: State<K>, e: State<K>, r: nat, t: K, p: seq<nat>, q: seq<nat>,
                           all: set<nat>, jumped: set<nat>)
    requires TotalPreorder(cmp) && Grew(s1, e) && (Done(e, r) ==> Done(s1, r)) && EndsAt(p, Node(s1, r))
    requires FoundFrom(cmp, s1, r, t, p, all, {}) && WentOn(cmp, s1, e, r, q, all, jumped)
    ensures FoundFrom(cmp, e, r, t, p + q, all, jumped)
  {
    hide TotalPreorder, Present, Done, Node;
    var x := Node(s1, r);
    AscendsMore(cmp, s1.sh, e.sh, x, p, q);
    hide Ascends;
    forall n | n in q
      ensures HasKey(e.sh, n) && cmp(t, Key(e.sh, n)) <= 0
    {
      assert x.value in p;
      LeLt(cmp, t, Key(e.sh, x.value), Key(e.sh, n));
    }
  }

  /** What was found from a target above the node left, seen from that node. */
  lemma FromNode<K(!new)>(cmp: (K, K) -> int, s: State<K>, e: State<K>, r: nat, t: K, trail: seq<nat>,
                          all: set<nat>, jumped: set<nat>)
    requires TotalPreorder(cmp) && Grew(s, e) && Below(cmp, s.sh, Node(s, r), t)
    requires FoundFrom(cmp, e, r, t, trail, all, jumped)
    ensures WentOn(cmp, s, e, r, trail, all, Over(cmp, s, r, t, all) + jumped)
  {
    hide TotalPreorder, Present, Done, Node, Ascends;
    var x := Node(s, r);
    forall n | n in trail
      ensures InFront(cmp, e.sh, x, n)
    {
      LtLe(cmp, Key(e.sh, x.value), t, Key(e.sh, n));
    }
    forall n | n in all && InFront(cmp, s.sh, x, n) && n !in Over(cmp, s, r, t, all)
      ensures cmp(t, Key(e.sh, n)) <= 0
    {
      Flip(cmp, t, Key(e.sh, n));
    }
  }

  lemma FoundFewer<K(!new)>(cmp: (K, K) -> int, e: State<K>, r: nat, t: K, trail: seq<nat>, all: set<nat>,
                            some: set<nat>)
    requires FoundFrom(cmp, e, r, t, trail, all, {}) && some <= all
    ensures FoundFrom(cmp, e, r, t, trail, some, {})
  {
    hide Present, Done, Ascends, Node;
  }

  lemma StayedPut<K(!new)>(cmp: (K, K) -> int, s: State<K>, r: nat, all: set<nat>)
    ensures Grew(s, s) && WentOn(cmp, s, s, r, [], all, {})
  {
    hide Present;
  }

  /** Further seeks, each onward, pass over no node of `all` but those they jump over. */
  lemma {:induction false} SeeksMissNothing<K(!new)>(cmp: (K, K) -> int, s: State<K>, ch: seq<seq<nat>>, r: nat,
                                                     ts: seq<Turn<K>>,
                                                     all: set<nat>)
      returns (ch': seq<seq<nat>>)
    requires TotalPreorder(cmp) && Inv(cmp, s, ch) && LegalTurns(cmp, s, r, ts) && Onward(cmp, s, r, ts)
    requires all <= Present(s.sh)
    ensures var e := AfterTurns(cmp, s, r, ts);
            && Inv(cmp, e, ch') && Grew(s, e)
            && WentOn(cmp, s, e, r, Trail(cmp, s, r, ts), all, Jumped(cmp, s, r, ts, all))
    decreases |ts|
  {
    hide TotalPreorder, Inv, Present, LegalTurn, AfterTurn, WentOn, FoundFrom, Done, Node, EndsAt, Below, Over;
    if ts == [] {
      ch' := ch;
      StayedPut(cmp, s, r, all);
    } else {
      var ch1 := SeekTurn(cmp, s, ch, r, ts[0]);
      var s1, t := AfterTurn(cmp, s, r, ts[0]), ts[0].op.target;
      ch' := SeeksMissNothing(cmp, s1, ch1, r, ts[1..], all);
      TurnsFrom(cmp, s, s1, r, t, ts[1..], Present(s.sh), all);
      var e := AfterTurns(cmp, s1, r, ts[1..]);
      GrewMore(s, s1, e);
      FromNode(cmp, s, e, r, t, s1.readers[r].seen + Trail(cmp, s1, r, ts[1..]), all,
               Jumped(cmp, s1, r, ts[1..], all));
    }
  }

  lemma TurnsFrom<K(!new)>(cmp: (K, K) -> int, s: State<K>, s1: State<K>, r: nat, t: K, ts: seq<Turn<K>>,
                           present: set<nat>,
                           all: set<nat>)
    requires TotalPreorder(cmp) && LegalTurns(cmp, s1, r, ts) && all <= present
    requires r < |s1.readers| && EndsAt(s1.readers[r].seen, Node(s1, r))
    requires FoundFrom(cmp, s1, r, t, s1.readers[r].seen, present, {})
    requires var e := AfterTurns(cmp, s1, r, ts);
             Grew(s1, e) && WentOn(cmp, s1, e, r, Trail(cmp, s1, r, ts), all, Jumped(cmp, s1, r, ts, all))
    ensures var e := AfterTurns(cmp, s1, r, ts);
            FoundFrom(cmp, e, r, t, s1.readers[r].seen + Trail(cmp, s1, r, ts), all, Jumped(cmp, s1, r, ts, all))
  {
    hide *;
    var e := AfterTurns(cmp, s1, r, ts);
    if Done(e, r) { DoneBefore(cmp, s1, r, ts); }
    FoundFewer(cmp, s1, r, t, s1.readers[r].seen, present, all);
    FoundMore(cmp, s1, e, r, t, s1.readers[r].seen, Trail(cmp, s1, r, ts), all, Jumped(cmp, s1, r, ts, all));
  }

  /** The whole reader of the concurrent test: a seek, then `next` and further seeks onward in
      any order while insertions go on. The nodes stood on are in the list and ascend from the
      first target, and every node present when the reader began and at or above that target was
      stood on, was jumped over by a seek from below it to above it, or is still ahead; when the
      reader has come to the end none is ahead. */
  lemma MixedScanMissesNothing<K(!new)>(cmp: (K, K) -> int, s: State<K>, pre: seq<Action<K>>, r: nat, t: K,
                                        first: seq<Action<K>>, ts: seq<Turn<K>>)
    requires TotalPreorder(cmp) && Initial(s) && Legal(cmp, s, pre)
    requires LegalTurn(cmp, Run(cmp, s, pre), r, Turn(Seek(t), first))
    requires var s1 := AfterTurn(cmp, Run(cmp, s, pre), r, Turn(Seek(t), first));
             LegalTurns(cmp, s1, r, ts) && Onward(cmp, s1, r, ts)
    ensures var b := Run(cmp, s, pre);
            var s1 := AfterTurn(cmp, b, r, Turn(Seek(t), first));
            var all := [Turn(Seek(t), first)] + ts;
            && LegalTurns(cmp, b, r, all)
            && var e := AfterTurns(cmp, b, r, all);
               var trail := Trail(cmp, b, r, all);
               var jumped := Jumped(cmp, s1, r, ts, Present(b.sh));
               && Ascends(cmp, e.sh, trail)
               && (forall n :: n in trail ==> n in Present(e.sh) && HasKey(e.sh, n) && cmp(t, Key(e.sh, n)) <= 0)
               && (forall n :: n in Present(b.sh) ==> HasKey(e.sh, n))
               && (Done(e, r) ==> forall n :: n in Present(b.sh) && cmp(t, Key(e.sh, n)) <= 0 ==>
                     n in trail || n in jumped || InFront(cmp, e.sh, Node(e, r), n))
               && (Done(e, r) && Node(e, r).None? ==> forall n :: n in Present(b.sh) && cmp(t, Key(e.sh, n)) <= 0 ==>
                     n in trail || n in jumped)
  {
    var ch0 := InitInv(cmp, s);
    var ch := RunKeepsInv(cmp, s, pre, ch0);
    var b := Run(cmp, s, pre);
    var turn := Turn(Seek(t), first);
    assert ([turn] + ts)[1..] == ts && ([turn] + ts)[0] == turn;
    var s1 := AfterTurn(cmp, b, r, turn);
    hide TotalPreorder, Initial, Inv, Present, Legal, Run, LegalTurn, AfterTurn, Done, Node, EndsAt, Ascends, WentOn;
    var ch1 := SeekTurn(cmp, b, ch, r, turn);
    assert Present(b.sh) <= Present(s1.sh);
    var ch2 := SeeksMissNothing(cmp, s1, ch1, r, ts, Present(b.sh));
    TurnsFrom(cmp, b, s1, r, t, ts, Present(b.sh), Present(b.sh));
  }
}
