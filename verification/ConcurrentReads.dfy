/**
  What one writer and many readers may rely on, stated over whole runs of the shared skip
  list: `pre` is the run up to some point, `post` the run from there on.
 */
module ConcurrentReads {
  import opened Wrappers
  import opened Order
  import opened ConcurrentSkipList

  /** `acts` contains no positioning operation of reader `r`: it only goes on with the last one. */
  predicate NoNewOp<K>(acts: seq<Action<K>>, r: nat) {
    forall i :: 0 <= i < |acts| && acts[i].BeginOp? ==> acts[i].r != r
  }

  /** In every interleaving, from an empty list on: no thread ever loads a slot that is not
      initialised or above its node's height, no assertion of the code fails, every level is
      a strictly ascending chain from the head to null, each within those below, and every
      node is on all the levels of its height save those the writer is still linking. */
  lemma EveryStateIsSound<K(!new)>(cmp: (K, K) -> int, s: State<K>, acts: seq<Action<K>>)
    requires TotalPreorder(cmp) && Initial(s) && Legal(cmp, s, acts)
    ensures !Run(cmp, s, acts).writer.WriterFault?
    ensures forall rd :: rd in Run(cmp, s, acts).readers ==> !rd.pc.ReaderFault?
    ensures exists ch ::
              Levels(cmp, Run(cmp, s, acts).sh, ch) && Complete(Run(cmp, s, acts).sh, ch, Run(cmp, s, acts).writer)
  {
    var ch0 := InitInv(cmp, s);
    var ch := RunKeepsInv(cmp, s, acts, ch0);
    hide Levels, TotalPreorder;
  }

  /** Between two positioning operations the history of a reader keeps its snapshot. */
  lemma {:induction false} SnapshotStays<K(!new)>(cmp: (K, K) -> int, s: State<K>, acts: seq<Action<K>>, r: nat)
    requires Legal(cmp, s, acts) && r < |s.readers| && NoNewOp(acts, r)
    ensures var e := Run(cmp, s, acts);
            r < |e.readers| && e.readers[r].snapshot == s.readers[r].snapshot && e.readers[r].op == s.readers[r].op
    decreases |acts|
  {
    if acts != [] {
      hide Enabled, WriterStepOf;
      SnapshotStays(cmp, Step(cmp, s, acts[0]), acts[1..], r);
    }
  }

  /** Nodes keep their keys. */
  ghost predicate KeysStay<K>(sh: Shared<K>, sh': Shared<K>) {
    forall n :: HasKey(sh, n) ==> HasKey(sh', n) && Key(sh', n) == Key(sh, n)
  }

  /** What holds of reader `r` after its operation `op` in state `b`, and `post`. */
  lemma OpKeepsInv<K(!new)>(cmp: (K, K) -> int, b: State<K>, ch: seq<seq<nat>>, r: nat, op: Op<K>,
                            post: seq<Action<K>>)
      returns (ch': seq<seq<nat>>)
    requires TotalPreorder(cmp) && Inv(cmp, b, ch) && Enabled(cmp, b, BeginOp(r, op))
    requires Legal(cmp, Step(cmp, b, BeginOp(r, op)), post) && NoNewOp(post, r)
    ensures var e := Run(cmp, Step(cmp, b, BeginOp(r, op)), post);
            && Inv(cmp, e, ch') && KeysStay(b.sh, e.sh) && Present(b.sh) <= Present(e.sh)
            && r < |e.readers| && e.readers[r].snapshot == Present(b.sh) && e.readers[r].op == op
  {
    var b1 := Step(cmp, b, BeginOp(r, op));
    assert b1.sh == b.sh && r < |b1.readers| && b1.readers[r].snapshot == Present(b.sh) && b1.readers[r].op == op;
    hide TotalPreorder, Inv, Enabled, Step, Legal, Run, Present, NoNewOp;
    var ch1 := StepKeepsInv(cmp, b, BeginOp(r, op), ch);
    ch' := RunKeepsInv(cmp, b1, post, ch1);
    PresentGrows(cmp, b1, post, ch1);
    SnapshotStays(cmp, b1, post, r);
  }

  /** What holds of reader `r` after `pre`, its operation `op`, and `post`. */
  lemma AfterOp<K(!new)>(cmp: (K, K) -> int, s: State<K>, pre: seq<Action<K>>, r: nat, op: Op<K>,
                         post: seq<Action<K>>)
      returns (ch: seq<seq<nat>>)
    requires TotalPreorder(cmp) && Initial(s) && Legal(cmp, s, pre)
    requires Enabled(cmp, Run(cmp, s, pre), BeginOp(r, op))
    requires Legal(cmp, Step(cmp, Run(cmp, s, pre), BeginOp(r, op)), post) && NoNewOp(post, r)
    ensures var b := Run(cmp, s, pre);
            var e := Run(cmp, Step(cmp, b, BeginOp(r, op)), post);
            && Inv(cmp, e, ch)
            && KeysStay(b.sh, e.sh)
            && r < |e.readers| && e.readers[r].snapshot == Present(b.sh) && e.readers[r].op == op
  {
    var ch0 := InitInv(cmp, s);
    var ch1 := RunKeepsInv(cmp, s, pre, ch0);
    hide Inv, Legal, TotalPreorder, Initial, Enabled, Step, Run, Present;
    ch := OpKeepsInv(cmp, Run(cmp, s, pre), ch1, r, op, post);
  }

  /** The keys a reader has stood on since its last positioning operation. */
  ghost predicate SeenAreKeys<K>(sh: Shared<K>, rd: Reader<K>) {
    forall n :: n in rd.seen ==> HasKey(sh, n) && n in Present(sh)
  }

  lemma UnpackReader<K(!new)>(cmp: (K, K) -> int, e: State<K>, ch: seq<seq<nat>>, r: nat)
    requires Inv(cmp, e, ch) && r < |e.readers|
    ensures var rd := e.readers[r];
            && SeenAreKeys(e.sh, rd)
            && Ascending(cmp, seq(|rd.seen|, i requires 0 <= i < |rd.seen| => Key(e.sh, rd.seen[i])))
            && (forall n :: n in rd.snapshot ==> HasKey(e.sh, n))
            && (rd.pc.At? ==> Covers(cmp, e.sh, rd, rd.pc.node))
            && (rd.pc.At? && rd.pc.node.Some? ==> rd.seen != [] && rd.pc.node.value == rd.seen[|rd.seen| - 1])
            && (rd.seen != [] ==> rd.pc.At?)
            && ch != [] && SeenInv(cmp, e.sh, ch[0], rd.seen)
  {
    hide Covers;
    PresentIsBottom(cmp, e.sh, ch[0]);
    assert ReaderInv(cmp, e.sh, ch, e.readers[r]);
  }

  /** The guarantee of the concurrent test: a seek followed by any number of `next`, while
      insertions go on, stands on strictly ascending keys at or above the target, all of
      them in the list, and every node that was present when the seek began and is at or
      above the target has been stood on or lies ahead. At the end of the scan nothing lies
      ahead, so none was missed. */
  lemma SeekMissesNothing<K(!new)>(cmp: (K, K) -> int, s: State<K>, pre: seq<Action<K>>, r: nat, t: K,
                                   post: seq<Action<K>>)
    requires TotalPreorder(cmp) && Initial(s) && Legal(cmp, s, pre)
    requires Enabled(cmp, Run(cmp, s, pre), BeginOp(r, Seek(t)))
    requires Legal(cmp, Step(cmp, Run(cmp, s, pre), BeginOp(r, Seek(t))), post) && NoNewOp(post, r)
    ensures var b := Run(cmp, s, pre);
            var e := Run(cmp, Step(cmp, b, BeginOp(r, Seek(t))), post);
            r < |e.readers| &&
            var rd := e.readers[r];
            && SeenAreKeys(e.sh, rd)
            && Ascending(cmp, seq(|rd.seen|, i requires 0 <= i < |rd.seen| => Key(e.sh, rd.seen[i])))
            && (rd.pc.At? ==>
                  && (forall n :: n in rd.seen ==> cmp(t, Key(e.sh, n)) <= 0)
                  && (forall n :: n in Present(b.sh) ==> HasKey(e.sh, n))
                  && (forall n :: n in Present(b.sh) && cmp(t, Key(e.sh, n)) <= 0 ==>
                        n in rd.seen || (rd.pc.node.Some? && Ahead(cmp, e.sh, rd.pc.node, n))))
            && (rd.pc == At(None) ==>
                  forall n :: n in Present(b.sh) && cmp(t, Key(e.sh, n)) <= 0 ==> n in rd.seen)
  {
    var ch := AfterOp(cmp, s, pre, r, Seek(t), post);
    var e := Run(cmp, Step(cmp, Run(cmp, s, pre), BeginOp(r, Seek(t))), post);
    UnpackReader(cmp, e, ch, r);
    hide Inv, Legal, TotalPreorder, Initial, Enabled, Step, Run, Present, OnBottom, BeginOpOf;
  }

  /** A forward scan from the first node, under insertions, misses nothing either. */
  lemma FullScanMissesNothing<K(!new)>(cmp: (K, K) -> int, s: State<K>, pre: seq<Action<K>>, r: nat,
                                       post: seq<Action<K>>)
    requires TotalPreorder(cmp) && Initial(s) && Legal(cmp, s, pre)
    requires Enabled(cmp, Run(cmp, s, pre), BeginOp(r, SeekToFirst))
    requires Legal(cmp, Step(cmp, Run(cmp, s, pre), BeginOp(r, SeekToFirst)), post) && NoNewOp(post, r)
    ensures var b := Run(cmp, s, pre);
            var e := Run(cmp, Step(cmp, b, BeginOp(r, SeekToFirst)), post);
            r < |e.readers| &&
            (e.readers[r].pc == At(None) ==> Present(b.sh) <= (set n | n in e.readers[r].seen) <= Present(e.sh))
  {
    var ch := AfterOp(cmp, s, pre, r, SeekToFirst, post);
    var e := Run(cmp, Step(cmp, Run(cmp, s, pre), BeginOp(r, SeekToFirst)), post);
    UnpackReader(cmp, e, ch, r);
    hide Inv, Legal, TotalPreorder, Initial, Enabled, Step, Run, Present, OnBottom, BeginOpOf;
  }

  /** `prev()` under insertions: the node it stands on is below the key it left, and no node
      that was present lies strictly between the two; without such a node below, it ends
      only if none was present. */
  lemma PrevMissesNothing<K(!new)>(cmp: (K, K) -> int, s: State<K>, pre: seq<Action<K>>, r: nat, k: K,
                                   post: seq<Action<K>>)
    requires TotalPreorder(cmp) && Initial(s) && Legal(cmp, s, pre)
    requires Enabled(cmp, Run(cmp, s, pre), BeginOp(r, Prev(k)))
    requires Legal(cmp, Step(cmp, Run(cmp, s, pre), BeginOp(r, Prev(k))), post) && NoNewOp(post, r)
    ensures var b := Run(cmp, s, pre);
            var e := Run(cmp, Step(cmp, b, BeginOp(r, Prev(k))), post);
            r < |e.readers| &&
            var rd := e.readers[r];
            (rd.pc.At? ==>
               && (forall n :: n in Present(b.sh) ==> HasKey(e.sh, n))
               && SeenAreKeys(e.sh, rd)
               && (rd.seen != [] ==>
                     && cmp(Key(e.sh, rd.seen[0]), k) < 0
                     && forall n :: n in Present(b.sh) && cmp(Key(e.sh, n), k) < 0 ==>
                          cmp(Key(e.sh, n), Key(e.sh, rd.seen[0])) <= 0)
               && (rd.seen == [] ==> forall n :: n in Present(b.sh) ==> cmp(Key(e.sh, n), k) >= 0))
  {
    var ch := AfterOp(cmp, s, pre, r, Prev(k), post);
    var e := Run(cmp, Step(cmp, Run(cmp, s, pre), BeginOp(r, Prev(k))), post);
    UnpackReader(cmp, e, ch, r);
    hide Inv, Legal, TotalPreorder, Initial, Enabled, Step, Run, Present, OnBottom, BeginOpOf;
  }

  /** `seekToLast()` under insertions: every node that was present is at or below the node it
      stands on; it stands on none only if none was present. */
  lemma LastMissesNothing<K(!new)>(cmp: (K, K) -> int, s: State<K>, pre: seq<Action<K>>, r: nat, post: seq<Action<K>>)
    requires TotalPreorder(cmp) && Initial(s) && Legal(cmp, s, pre)
    requires Enabled(cmp, Run(cmp, s, pre), BeginOp(r, SeekToLast))
    requires Legal(cmp, Step(cmp, Run(cmp, s, pre), BeginOp(r, SeekToLast)), post) && NoNewOp(post, r)
    ensures var b := Run(cmp, s, pre);
            var e := Run(cmp, Step(cmp, b, BeginOp(r, SeekToLast)), post);
            r < |e.readers| &&
            var rd := e.readers[r];
            (rd.pc.At? ==>
               && (forall n :: n in Present(b.sh) ==> HasKey(e.sh, n))
               && SeenAreKeys(e.sh, rd)
               && (rd.seen != [] ==> forall n :: n in Present(b.sh) ==> cmp(Key(e.sh, n), Key(e.sh, rd.seen[0])) <= 0)
               && (rd.seen == [] ==> Present(b.sh) == {}))
  {
    var ch := AfterOp(cmp, s, pre, r, SeekToLast, post);
    var e := Run(cmp, Step(cmp, Run(cmp, s, pre), BeginOp(r, SeekToLast)), post);
    UnpackReader(cmp, e, ch, r);
    hide Inv, Legal, TotalPreorder, Initial, Enabled, Step, Run, Present, OnBottom, BeginOpOf;
  }

  /** `acts` contains no `next` of reader `r`. */
  predicate NoNext<K>(acts: seq<Action<K>>, r: nat) {
    forall i :: 0 <= i < |acts| && acts[i].Next? ==> acts[i].r != r
  }

  /** The operation has just ended, or is still under way. */
  predicate Fresh<K>(rd: Reader<K>) {
    if rd.pc.At? then rd.seen == (if rd.pc.node.Some? then [rd.pc.node.value] else []) else rd.seen == []
  }

  lemma {:induction false} StaysFresh<K(!new)>(cmp: (K, K) -> int, s: State<K>, acts: seq<Action<K>>, r: nat)
    requires Legal(cmp, s, acts) && r < |s.readers| && NoNewOp(acts, r) && NoNext(acts, r) && Fresh(s.readers[r])
    ensures r < |Run(cmp, s, acts).readers| && Fresh(Run(cmp, s, acts).readers[r])
    decreases |acts|
  {
    if acts != [] {
      hide WriterStepOf, Load;
      StaysFresh(cmp, Step(cmp, s, acts[0]), acts[1..], r);
    }
  }

  /** `contains(k)` once its search has ended: the answer of lines 128-133. */
  ghost predicate Answer<K>(cmp: (K, K) -> int, e: State<K>, r: nat, k: K)
    requires r < |e.readers|
  {
    var rd := e.readers[r];
    rd.pc.At? && rd.pc.node.Some? && HasKey(e.sh, rd.pc.node.value) && cmp(k, Key(e.sh, rd.pc.node.value)) == 0
  }

  ghost predicate HoldsKey<K>(cmp: (K, K) -> int, sh: Shared<K>, k: K) {
    exists n :: n in Present(sh) && HasKey(sh, n) && cmp(k, Key(sh, n)) == 0
  }

  /** `contains` under insertions: a key present when the search began is found, and a key
      that is found is in the list. */
  lemma ContainsIsSound<K(!new)>(cmp: (K, K) -> int, s: State<K>, pre: seq<Action<K>>, r: nat, k: K,
                                 post: seq<Action<K>>)
    requires TotalPreorder(cmp) && Initial(s) && Legal(cmp, s, pre)
    requires Enabled(cmp, Run(cmp, s, pre), BeginOp(r, Seek(k)))
    requires Legal(cmp, Step(cmp, Run(cmp, s, pre), BeginOp(r, Seek(k))), post) && NoNewOp(post, r) && NoNext(post, r)
    ensures var b := Run(cmp, s, pre);
            var e := Run(cmp, Step(cmp, b, BeginOp(r, Seek(k))), post);
            r < |e.readers| &&
            (e.readers[r].pc.At? ==>
               && (HoldsKey(cmp, b.sh, k) ==> Answer(cmp, e, r, k))
               && (Answer(cmp, e, r, k) ==> HoldsKey(cmp, e.sh, k)))
  {
    var b := Run(cmp, s, pre);
    var e := Run(cmp, Step(cmp, b, BeginOp(r, Seek(k))), post);
    SeekMissesNothing(cmp, s, pre, r, k, post);
    StaysFresh(cmp, Step(cmp, b, BeginOp(r, Seek(k))), post, r);
    var ch := AfterOp(cmp, s, pre, r, Seek(k), post);
    hide TotalPreorder, Legal, Initial, Enabled, Step, Run, Present, OnBottom, BeginOpOf, Inv, Ahead;
    var rd := e.readers[r];
    if rd.pc.At? && HoldsKey(cmp, b.sh, k) {
      var n :| n in Present(b.sh) && HasKey(b.sh, n) && cmp(k, Key(b.sh, n)) == 0;
      assert Key(e.sh, n) == Key(b.sh, n);
      EqualIsFound(cmp, e.sh, rd, k, n);
    }
  }

  lemma EqualIsFound<K(!new)>(cmp: (K, K) -> int, sh: Shared<K>, rd: Reader<K>, k: K, n: nat)
    requires TotalPreorder(cmp) && rd.pc.At? && Fresh(rd) && HasKey(sh, n) && cmp(k, Key(sh, n)) == 0
    requires forall m :: m in rd.seen ==> HasKey(sh, m) && cmp(k, Key(sh, m)) <= 0
    requires n in rd.seen || (rd.pc.node.Some? && Ahead(cmp, sh, rd.pc.node, n))
    ensures rd.pc.node.Some? && HasKey(sh, rd.pc.node.value) && cmp(k, Key(sh, rd.pc.node.value)) == 0
  {
  }

  // ----- insertion as seen by everyone else

  /** The one step that changes the set of present nodes: the store that links the new node
      on the bottom level. */
  predicate Links<K>(s: State<K>, a: Action<K>) {
    a.WriterStep? && s.writer.Publish? && s.writer.i == 0
  }

  lemma StepPresent<K(!new)>(cmp: (K, K) -> int, s: State<K>, a: Action<K>,
                             ch: seq<seq<nat>>) returns (ch': seq<seq<nat>>)
    requires TotalPreorder(cmp) && Inv(cmp, s, ch) && Enabled(cmp, s, a)
    ensures Inv(cmp, Step(cmp, s, a), ch') && Grows(s.sh, ch, Step(cmp, s, a).sh, ch')
    ensures Present(Step(cmp, s, a).sh) == Present(s.sh) + (if Links(s, a) then {s.writer.x} else {})
    ensures Links(s, a) ==> s.writer.x !in Present(s.sh)
  {
    ch' := StepKeepsInv(cmp, s, a, ch);
    PresentIsBottom(cmp, s.sh, ch[0]);
    PresentIsBottom(cmp, Step(cmp, s, a).sh, ch'[0]);
    hide Present, Step, TotalPreorder, Levels, Chain;
  }

  /** The list only ever gains nodes. */
  lemma {:induction false} PresentGrows<K(!new)>(cmp: (K, K) -> int, s: State<K>, acts: seq<Action<K>>,
                                                 ch: seq<seq<nat>>)
    requires TotalPreorder(cmp) && Inv(cmp, s, ch) && Legal(cmp, s, acts)
    ensures Present(s.sh) <= Present(Run(cmp, s, acts).sh)
    decreases |acts|
  {
    if acts != [] {
      hide TotalPreorder, Inv, Enabled, Step, Present;
      var ch1 := StepPresent(cmp, s, acts[0], ch);
      PresentGrows(cmp, Step(cmp, s, acts[0]), acts[1..], ch1);
    }
  }

  /** How far the insertion of `key` into the nodes `base` has come, as readers see it: not
      at all, or completely. */
  ghost predicate InsertStage<K>(base: set<nat>, key: K, s: State<K>) {
    match s.writer
    case Idle =>
      exists x :: x !in base && HasKey(s.sh, x) && Key(s.sh, x) == key && Present(s.sh) == base + {x}
    case InitSlot(x, k, _, _, i) => k == key && x !in base && Present(s.sh) == base + (if i == 0 then {} else {x})
    case Publish(x, k, _, _, i) => k == key && x !in base && Present(s.sh) == base + (if i == 0 then {} else {x})
    case Search(k, _, _, _) => k == key && Present(s.sh) == base
    case ChooseHeight(k, _) => k == key && Present(s.sh) == base
    case Allocate(k, _, _) => k == key && Present(s.sh) == base
    case WriterFault => false
  }

  lemma StageStep<K(!new)>(cmp: (K, K) -> int, s: State<K>, a: Action<K>, ch: seq<seq<nat>>, base: set<nat>, key: K)
      returns (ch': seq<seq<nat>>)
    requires TotalPreorder(cmp) && Inv(cmp, s, ch) && Enabled(cmp, s, a) && !a.BeginInsert?
    requires InsertStage(base, key, s) && forall n :: n in base ==> n < |s.sh.nodes|
    ensures Inv(cmp, Step(cmp, s, a), ch') && InsertStage(base, key, Step(cmp, s, a))
    ensures forall n :: n in base ==> n < |Step(cmp, s, a).sh.nodes|
  {
    hide TotalPreorder, Present, Levels, ReaderInv, WriterInv, Step, Enabled, InsertStage, WriterStepOf;
    ch' := StepPresent(cmp, s, a, ch);
    if a.WriterStep? {
      StepOfWriter(cmp, s, a);
      FaultFree(cmp, Step(cmp, s, a), ch');
      WriterStage(cmp, s, a.height, ch, base, key);
    } else {
      StepOfOthers(cmp, s, a);
      SameStage(s, Step(cmp, s, a), base, key);
    }
  }

  lemma StepOfWriter<K(!new)>(cmp: (K, K) -> int, s: State<K>, a: Action<K>)
    requires a.WriterStep? && Enabled(cmp, s, a)
    ensures var (sh', w') := WriterStepOf(cmp, s.sh, s.writer, a.height);
            Step(cmp, s, a) == s.(sh := sh', writer := w') && !s.writer.Idle?
  {
  }

  lemma StepOfOthers<K(!new)>(cmp: (K, K) -> int, s: State<K>, a: Action<K>)
    requires !a.WriterStep? && !a.BeginInsert? && Enabled(cmp, s, a)
    ensures Step(cmp, s, a).sh == s.sh && Step(cmp, s, a).writer == s.writer
  {
  }

  lemma FaultFree<K>(cmp: (K, K) -> int, s: State<K>, ch: seq<seq<nat>>)
    requires Inv(cmp, s, ch)
    ensures !s.writer.WriterFault?
  {
  }

  lemma SameStage<K>(s: State<K>, s': State<K>, base: set<nat>, key: K)
    requires s'.sh == s.sh && s'.writer == s.writer && InsertStage(base, key, s)
    ensures InsertStage(base, key, s')
  {
  }

  lemma WriterStage<K(!new)>(cmp: (K, K) -> int, s: State<K>, height: nat, ch: seq<seq<nat>>, base: set<nat>, key: K)
    requires |ch| == MAX_HEIGHT && WriterInv(cmp, s.sh, ch, s.writer)
    requires InsertStage(base, key, s) && (forall n :: n in base ==> n < |s.sh.nodes|) && !s.writer.Idle?
    requires var (sh', w') := WriterStepOf(cmp, s.sh, s.writer, height);
             !w'.WriterFault?
             && Present(sh') == Present(s.sh) + (if s.writer.Publish? && s.writer.i == 0 then {s.writer.x} else {})
    ensures var (sh', w') := WriterStepOf(cmp, s.sh, s.writer, height);
            InsertStage(base, key, s.(sh := sh', writer := w')) && |s.sh.nodes| <= |sh'.nodes|
  {
    hide Present, Load, PrevOn, HeadAsPrev;
    if s.writer.Publish? {
      assert HasKey(s.sh, s.writer.x) && Key(s.sh, s.writer.x) == key;
    }
  }

  lemma {:induction false} StageRun<K(!new)>(cmp: (K, K) -> int, s: State<K>, acts: seq<Action<K>>, ch: seq<seq<nat>>,
                                             base: set<nat>, key: K)
    requires TotalPreorder(cmp) && Inv(cmp, s, ch) && Legal(cmp, s, acts)
    requires forall i :: 0 <= i < |acts| ==> !acts[i].BeginInsert?
    requires InsertStage(base, key, s) && forall n :: n in base ==> n < |s.sh.nodes|
    ensures InsertStage(base, key, Run(cmp, s, acts))
    decreases |acts|
  {
    if acts != [] {
      hide TotalPreorder, Inv, Enabled, Step, InsertStage;
      var ch1 := StageStep(cmp, s, acts[0], ch, base, key);
      StageRun(cmp, Step(cmp, s, acts[0]), acts[1..], ch1, base, key);
    }
  }

  /** An insertion takes effect at one store: at every moment until the next insertion, the
      nodes present are those present before it or those and one new node holding the key;
      when the writer is idle again it is the latter. */
  lemma InsertIsAtomic<K(!new)>(cmp: (K, K) -> int, s: State<K>, pre: seq<Action<K>>, key: K, post: seq<Action<K>>)
    requires TotalPreorder(cmp) && Initial(s) && Legal(cmp, s, pre)
    requires Enabled(cmp, Run(cmp, s, pre), BeginInsert(key))
    requires Legal(cmp, Step(cmp, Run(cmp, s, pre), BeginInsert(key)), post)
    requires forall i :: 0 <= i < |post| ==> !post[i].BeginInsert?
    ensures var b := Run(cmp, s, pre);
            InsertStage(Present(b.sh), key, Run(cmp, Step(cmp, b, BeginInsert(key)), post))
  {
    var ch0 := InitInv(cmp, s);
    var ch1 := RunKeepsInv(cmp, s, pre, ch0);
    var b := Run(cmp, s, pre);
    var ch2 := StepPresent(cmp, b, BeginInsert(key), ch1);
    var s1 := Step(cmp, b, BeginInsert(key));
    assert s1.sh == b.sh && s1.writer.Search?;
    hide Inv, TotalPreorder, Legal, Initial, Enabled, Step, Present;
    StageRun(cmp, s1, post, ch2, Present(b.sh), key);
  }

  // ----- what keys can be in the list

  /** Every insertion is of a key that satisfies `good`. */
  ghost predicate InsertsOnly<K>(acts: seq<Action<K>>, good: K -> bool) {
    forall i :: 0 <= i < |acts| && acts[i].BeginInsert? ==> good(acts[i].key)
  }

  ghost predicate KeysAre<K>(s: State<K>, good: K -> bool) {
    && (forall n :: HasKey(s.sh, n) ==> good(Key(s.sh, n)))
    && (!s.writer.Idle? && !s.writer.WriterFault? ==> good(s.writer.key))
  }

  lemma KeysStep<K(!new)>(cmp: (K, K) -> int, s: State<K>, a: Action<K>, good: K -> bool)
    requires Enabled(cmp, s, a) && KeysAre(s, good) && (a.BeginInsert? ==> good(a.key))
    ensures KeysAre(Step(cmp, s, a), good)
  {
    hide Load, Present, HeadAsPrev;
    var s' := Step(cmp, s, a);
    assert forall n: nat :: HasKey(s'.sh, n) && n < |s.sh.nodes| ==> HasKey(s.sh, n) && Key(s'.sh, n) == Key(s.sh, n);
    assert forall n: nat :: HasKey(s'.sh, n) && n >= |s.sh.nodes| ==>
        s.writer.Allocate? && Key(s'.sh, n) == s.writer.key;
  }

  /** The list only ever holds keys that were given to `insert`. */
  lemma {:induction false} KeysRun<K(!new)>(cmp: (K, K) -> int, s: State<K>, acts: seq<Action<K>>, good: K -> bool)
    requires Legal(cmp, s, acts) && KeysAre(s, good) && InsertsOnly(acts, good)
    ensures KeysAre(Run(cmp, s, acts), good)
    decreases |acts|
  {
    if acts != [] {
      hide Enabled, Step, KeysAre;
      KeysStep(cmp, s, acts[0], good);
      KeysRun(cmp, Step(cmp, s, acts[0]), acts[1..], good);
    }
  }
}
