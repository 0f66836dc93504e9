/**
  What readers achieve. From every reachable state, wherever the writer has stopped in the
  middle of an insertion, `next` moves to the node that follows, and an operation that runs
  on alone comes to its end at exactly the right node, whatever stored height it starts from.
 */
module ConcurrentProgress {
  import opened Wrappers
  import opened Order
  import opened ConcurrentSkipList
  import opened ConcurrentReads

  // ----- next

  /** Node `n` follows `x`: it is present and above `x`, and no present node is in between. */
  ghost predicate Follows<K>(cmp: (K, K) -> int, sh: Shared<K>, x: nat, n: nat)
    requires HasKey(sh, x) && HasKey(sh, n)
  {
    && n in Present(sh) && cmp(Key(sh, x), Key(sh, n)) < 0
    && forall m :: m in Present(sh) && HasKey(sh, m) ==>
         cmp(Key(sh, m), Key(sh, x)) <= 0 || m == n || cmp(Key(sh, n), Key(sh, m)) < 0
  }

  /** Only reader `r` has changed. */
  ghost predicate OnlyReader<K>(s: State<K>, e: State<K>, r: nat) {
    && r < |s.readers| == |e.readers| && e.sh == s.sh && e.writer == s.writer
    && forall q :: 0 <= q < |s.readers| && q != r ==> e.readers[q] == s.readers[q]
  }

  /** In every reachable state a reader that stands on a node may call `next()`. It moves to the
      node that follows, which becomes the last it has stood on; or, when no present node is
      above, to the end. */
  lemma NextMoves<K(!new)>(cmp: (K, K) -> int, s: State<K>, pre: seq<Action<K>>, r: nat)
    requires TotalPreorder(cmp) && Initial(s) && Legal(cmp, s, pre)
    requires var b := Run(cmp, s, pre); r < |b.readers| && b.readers[r].pc.At? && b.readers[r].pc.node.Some?
    ensures var b := Run(cmp, s, pre);
            var x := b.readers[r].pc.node.value;
            && HasKey(b.sh, x) && Enabled(cmp, b, Next(r))
            && var e := Step(cmp, b, Next(r));
               && OnlyReader(b, e, r) && e.readers[r].pc.At?
               && match e.readers[r].pc.node
                  case Some(n) =>
                    HasKey(b.sh, n) && Follows(cmp, b.sh, x, n) && e.readers[r].seen == b.readers[r].seen + [n]
                  case None =>
                    && e.readers[r].seen == b.readers[r].seen
                    && forall m :: m in Present(b.sh) ==> HasKey(b.sh, m) && cmp(Key(b.sh, m), Key(b.sh, x)) <= 0
  {
    var ch0 := InitInv(cmp, s);
    var ch := RunKeepsInv(cmp, s, pre, ch0);
    var b := Run(cmp, s, pre);
    StandsInList(cmp, b, ch, r);
    NextIs(cmp, b, r);
    hide Inv, Legal, Run, Initial, TotalPreorder, Present, Enabled, Step, NextStepOf, Follows;
    NextFollows(cmp, b.sh, ch, b.readers[r]);
  }

  lemma NextIs<K(!new)>(cmp: (K, K) -> int, b: State<K>, r: nat)
    requires r < |b.readers| && b.readers[r].pc.At? && b.readers[r].pc.node.Some?
    ensures Enabled(cmp, b, Next(r))
    ensures Step(cmp, b, Next(r)) == b.(readers := b.readers[r := NextStepOf(b.sh, b.readers[r])])
  {
  }

  lemma StandsInList<K(!new)>(cmp: (K, K) -> int, b: State<K>, ch: seq<seq<nat>>, r: nat)
    requires Inv(cmp, b, ch) && r < |b.readers| && b.readers[r].pc.At? && b.readers[r].pc.node.Some?
    ensures Levels(cmp, b.sh, ch) && |ch| == MAX_HEIGHT
    ensures b.readers[r].pc.node.value in ch[0] && HasKey(b.sh, b.readers[r].pc.node.value)
  {
    hide Levels, Covers;
    LevelsLength(cmp, b.sh, ch);
  }

  lemma NextFollows<K(!new)>(cmp: (K, K) -> int, sh: Shared<K>, ch: seq<seq<nat>>, rd: Reader<K>)
    requires TotalPreorder(cmp) && Levels(cmp, sh, ch) && |ch| == MAX_HEIGHT
    requires rd.pc.At? && rd.pc.node.Some? && rd.pc.node.value in ch[0] && HasKey(sh, rd.pc.node.value)
    ensures var x, rd' := rd.pc.node.value, NextStepOf(sh, rd);
            && rd'.pc.At?
            && match rd'.pc.node
               case Some(n) => HasKey(sh, n) && Follows(cmp, sh, x, n) && rd'.seen == rd.seen + [n]
               case None =>
                 && rd'.seen == rd.seen
                 && forall m :: m in Present(sh) ==> HasKey(sh, m) && cmp(Key(sh, m), Key(sh, x)) <= 0
  {
    var x := rd.pc.node.value;
    var j := StandsOn(cmp, sh, ch, 0, x);
    PresentIsBottom(cmp, sh, ch[0]);
    Neighbours(cmp, sh, ch[0], x, j, Present(sh));
    hide TotalPreorder, Present, LinkAt;
    if j + 1 < |ch[0]| { ChainStep(cmp, sh, ch[0], 0, j); }
    NeighbourFollows(cmp, sh, x, Load(sh, x, 0).value);
  }

  lemma NeighbourFollows<K(!new)>(cmp: (K, K) -> int, sh: Shared<K>, x: nat, next: Option<nat>)
    requires TotalPreorder(cmp) && x != 0 && HasKey(sh, x) && (next.Some? ==> HasKey(sh, next.value))
    requires forall m :: m in Present(sh) ==> HasKey(sh, m) && NoneBetween(cmp, sh, m, x, next)
    ensures forall m :: m in Present(sh) ==>
              || cmp(Key(sh, m), Key(sh, x)) <= 0
              || (next.Some? && (m == next.value || cmp(Key(sh, next.value), Key(sh, m)) < 0))
  {
    Flip(cmp, Key(sh, x), Key(sh, x));
    hide TotalPreorder, Present;
  }

  // ----- descents alone

  /** `n` loads of the reader alone lead from `rd` to `rd'`. */
  ghost predicate Loads<K>(cmp: (K, K) -> int, sh: Shared<K>, rd: Reader<K>, n: nat, rd': Reader<K>)
    decreases n
  {
    if n == 0 then rd' == rd
    else (rd.pc.Descend? || rd.pc.LoadFirst?) && Loads(cmp, sh, ReaderStepOf(cmp, sh, rd), n - 1, rd')
  }

  /** One load of a descent brings it to an end, further right, or a level down. */
  lemma DescentMoves<K(!new)>(cmp: (K, K) -> int, sh: Shared<K>, ch: seq<seq<nat>>, rd: Reader<K>, j: nat)
      returns (j': nat)
    requires TotalPreorder(cmp) && Levels(cmp, sh, ch) && ReaderInv(cmp, sh, ch, rd) && rd.pc.Descend?
    requires rd.pc.level < |ch| && j < |ch[rd.pc.level]| && ch[rd.pc.level][j] == rd.pc.x
    ensures var rd' := ReaderStepOf(cmp, sh, rd);
            && ReaderInv(cmp, sh, ch, rd') && rd'.op == rd.op && rd'.snapshot == rd.snapshot
            && (rd'.pc.Descend? || (rd'.pc.At? && Fresh(rd')))
            && (rd'.pc.Descend? ==>
                  && rd'.pc.level < |ch| && j' < |ch[rd'.pc.level]| && ch[rd'.pc.level][j'] == rd'.pc.x
                  && (rd'.pc.level == rd.pc.level - 1 || (rd'.pc.level == rd.pc.level && j' == j + 1)))
  {
    hide TotalPreorder, Levels, Chain, ReaderInv, Load, MovesRight;
    var level, rd' := rd.pc.level, ReaderStepOf(cmp, sh, rd);
    LevelsLength(cmp, sh, ch);
    LevelChain(cmp, sh, ch, level);
    ReaderPlace(cmp, sh, ch, rd);
    DescendKeepsInv(cmp, sh, ch, rd);
    ReaderPlace(cmp, sh, ch, rd');
    ChainLoad(cmp, sh, ch[level], level, j);
    NoMove(cmp, sh, rd.pc.goal);
    j' := j + 1;
    if rd'.pc.Descend? && rd'.pc.level < level {
      j' :| 0 <= j' < |ch[rd'.pc.level]| && ch[rd'.pc.level][j'] == rd'.pc.x;
    }
  }

  lemma ReaderPlace<K>(cmp: (K, K) -> int, sh: Shared<K>, ch: seq<seq<nat>>, rd: Reader<K>)
    requires |ch| == MAX_HEIGHT && ReaderInv(cmp, sh, ch, rd)
    ensures !rd.pc.ReaderFault?
    ensures rd.pc.Descend? ==> rd.seen == [] && rd.pc.level < |ch| && rd.pc.x in ch[rd.pc.level]
  {
    hide Covers, SeenInv;
  }

  lemma NoMove<K>(cmp: (K, K) -> int, sh: Shared<K>, goal: Goal<K>)
    ensures !MovesRight(cmp, sh, goal, None)
  {
  }

  /** So a descent that is left alone ends. */
  lemma {:induction false} DescentEnds<K(!new)>(cmp: (K, K) -> int, sh: Shared<K>, ch: seq<seq<nat>>, rd: Reader<K>,
                                                j: nat)
      returns (n: nat, rd': Reader<K>)
    requires TotalPreorder(cmp) && Levels(cmp, sh, ch) && ReaderInv(cmp, sh, ch, rd) && rd.pc.Descend?
    requires rd.pc.level < |ch| && j < |ch[rd.pc.level]| && ch[rd.pc.level][j] == rd.pc.x
    ensures Loads(cmp, sh, rd, n, rd') && rd'.pc.At? && Fresh(rd')
    ensures ReaderInv(cmp, sh, ch, rd') && rd'.op == rd.op && rd'.snapshot == rd.snapshot
    decreases rd.pc.level, |ch[rd.pc.level]| - j
  {
    hide TotalPreorder, Levels, ReaderInv, ReaderStepOf, Fresh;
    var j1 := DescentMoves(cmp, sh, ch, rd, j);
    var rd1 := ReaderStepOf(cmp, sh, rd);
    if rd1.pc.Descend? {
      n, rd' := DescentEnds(cmp, sh, ch, rd1, j1);
      n := n + 1;
    } else {
      n, rd' := 1, rd1;
      assert Loads(cmp, sh, rd1, 0, rd1);
    }
  }

  // ----- whole operations alone

  /** Where an operation should end: at the first node, or the first not below the target; or at
      the last node, or the last below the key; or nowhere, if there is no such node. */
  ghost predicate RightNode<K>(cmp: (K, K) -> int, sh: Shared<K>, op: Op<K>, node: Option<nat>)
    requires forall n :: n in Present(sh) ==> HasKey(sh, n)
  {
    && (node.Some? ==> node.value in Present(sh) && Fits(cmp, sh, op, node.value))
    && forall m :: m in Present(sh) && Fits(cmp, sh, op, m) ==>
         node.Some? &&
         if op.Seek? || op.SeekToFirst? then cmp(Key(sh, node.value), Key(sh, m)) <= 0
         else cmp(Key(sh, m), Key(sh, node.value)) <= 0
  }

  ghost predicate Fits<K>(cmp: (K, K) -> int, sh: Shared<K>, op: Op<K>, n: nat)
    requires HasKey(sh, n)
  {
    match op
    case Seek(t) => cmp(t, Key(sh, n)) <= 0
    case Prev(k) => cmp(Key(sh, n), k) < 0
    case SeekToFirst => true
    case SeekToLast => true
  }

  lemma EndsRight<K(!new)>(cmp: (K, K) -> int, s: State<K>, ch: seq<seq<nat>>, rd: Reader<K>)
    requires TotalPreorder(cmp) && Inv(cmp, s, ch) && ReaderInv(cmp, s.sh, ch, rd)
    requires rd.pc.At? && Fresh(rd) && rd.snapshot == Present(s.sh)
    ensures forall n :: n in Present(s.sh) ==> HasKey(s.sh, n)
    ensures RightNode(cmp, s.sh, rd.op, rd.pc.node)
  {
    PresentIsBottom(cmp, s.sh, ch[0]);
    SameIsEqual(cmp, s.sh);
    hide TotalPreorder, Present, Levels, WriterInv, Complete;
  }

  lemma SameIsEqual<K(!new)>(cmp: (K, K) -> int, sh: Shared<K>)
    requires TotalPreorder(cmp)
    ensures forall n :: HasKey(sh, n) ==> cmp(Key(sh, n), Key(sh, n)) == 0
  {
  }

  function LoadActs<K>(r: nat, n: nat): seq<Action<K>> {
    if n == 0 then [] else [ReaderStep(r)] + LoadActs(r, n - 1)
  }

  /** An operation without anyone else: the positioning, the load of the height, if it needs one,
      which may give any height ever stored, and `n` loads of pointers. */
  function AloneActs<K>(r: nat, op: Op<K>, height: nat, n: nat): seq<Action<K>> {
    [BeginOp(r, op)] + (if op.SeekToFirst? then LoadActs(r, n) else [ReadHeight(r, height)] + LoadActs(r, n))
  }

  lemma {:induction false} LoadsRun<K(!new)>(cmp: (K, K) -> int, s: State<K>, r: nat, n: nat, rd': Reader<K>)
    requires r < |s.readers| && Loads(cmp, s.sh, s.readers[r], n, rd')
    ensures RunsTo(cmp, s, LoadActs(r, n), s.(readers := s.readers[r := rd']))
    decreases n
  {
    hide ReaderStepOf;
    if n == 0 {
      assert s.readers[r := rd'] == s.readers;
    } else {
      var s1 := s.(readers := s.readers[r := ReaderStepOf(cmp, s.sh, s.readers[r])]);
      assert Step(cmp, s, ReaderStep(r)) == s1;
      LoadsRun(cmp, s1, r, n - 1, rd');
      assert s1.readers[r := rd'] == s.readers[r := rd'];
      hide Step, RunsTo;
      RunsFirst(cmp, s, ReaderStep(r), LoadActs(r, n - 1), s.(readers := s.readers[r := rd']));
    }
  }

  /** The reader's loads from the start of an operation, with the height it reads. */
  lemma LoadsEnd<K(!new)>(cmp: (K, K) -> int, sh: Shared<K>, ch: seq<seq<nat>>, op: Op<K>, height: nat)
      returns (n: nat, rd': Reader<K>)
    requires TotalPreorder(cmp) && Levels(cmp, sh, ch) && height in sh.stored
    ensures height > 0
    ensures var rd := BeginOpOf(sh, op);
            && (rd.pc.LoadFirst? <==> op.SeekToFirst?) && (rd.pc.LoadHeight? <==> !op.SeekToFirst?)
            && Loads(cmp, sh, Started(sh, op, height), n, rd')
    ensures rd'.pc.At? && Fresh(rd') && ReaderInv(cmp, sh, ch, rd') && rd'.op == op && rd'.snapshot == Present(sh)
  {
    var rd := BeginOpOf(sh, op);
    BeginOpInv(cmp, sh, ch, op);
    hide TotalPreorder, ReaderInv, Present;
    if op.SeekToFirst? {
      FirstKeepsInv(cmp, sh, ch, rd);
      assert Chain(cmp, sh, ch[0], 0);
      ChainLoad(cmp, sh, ch[0], 0, 0);
      n, rd' := 1, ReaderStepOf(cmp, sh, rd);
      assert Loads(cmp, sh, rd', 0, rd');
    } else {
      ReadHeightInv(cmp, sh, ch, rd, height);
      assert Chain(cmp, sh, ch[height - 1], height - 1);
      n, rd' := DescentEnds(cmp, sh, ch, rd.(pc := Descend(rd.pc.goal, 0, height - 1)), 0);
    }
  }

  /** The reader of an operation once it has read the height, if it needs one. */
  ghost function Started<K>(sh: Shared<K>, op: Op<K>, height: nat): Reader<K>
    requires height > 0
  {
    var rd := BeginOpOf(sh, op);
    if rd.pc.LoadHeight? then rd.(pc := Descend(rd.pc.goal, 0, height - 1)) else rd
  }

  lemma AloneRuns<K(!new)>(cmp: (K, K) -> int, b: State<K>, r: nat, op: Op<K>, height: nat, n: nat, rd': Reader<K>)
    requires Enabled(cmp, b, BeginOp(r, op)) && height in b.sh.stored && height > 0
    requires var rd := BeginOpOf(b.sh, op);
             && (rd.pc.LoadHeight? <==> !op.SeekToFirst?)
             && Loads(cmp, b.sh, Started(b.sh, op, height), n, rd')
    ensures r < |b.readers| && RunsTo(cmp, b, AloneActs(r, op, height, n), b.(readers := b.readers[r := rd']))
  {
    var rd := BeginOpOf(b.sh, op);
    var b1, e := b.(readers := b.readers[r := rd]), b.(readers := b.readers[r := rd']);
    assert Step(cmp, b, BeginOp(r, op)) == b1;
    hide BeginOpOf, Loads, RunsTo;
    if op.SeekToFirst? {
      LoadsRun(cmp, b1, r, n, rd');
      assert b1.readers[r := rd'] == e.readers;
      RunsFirst(cmp, b, BeginOp(r, op), LoadActs(r, n), e);
    } else {
      var rd2 := rd.(pc := Descend(rd.pc.goal, 0, height - 1));
      var b2 := b.(readers := b.readers[r := rd2]);
      assert b1.readers[r := rd2] == b2.readers;
      assert Step(cmp, b1, ReadHeight(r, height)) == b2;
      LoadsRun(cmp, b2, r, n, rd');
      assert b2.readers[r := rd'] == e.readers;
      RunsFirst(cmp, b1, ReadHeight(r, height), LoadActs(r, n), e);
      RunsFirst(cmp, b, BeginOp(r, op), [ReadHeight(r, height)] + LoadActs(r, n), e);
    }
  }

  /** In every reachable state, in the middle of an insertion too, an operation that may begin
      and runs on alone ends after some number of loads, whichever stored height it reads; it
      ends at the right node and has changed nothing but its reader. */
  lemma OperationEnds<K(!new)>(cmp: (K, K) -> int, s: State<K>, pre: seq<Action<K>>, r: nat, op: Op<K>, height: nat)
      returns (n: nat)
    requires TotalPreorder(cmp) && Initial(s) && Legal(cmp, s, pre)
    requires Enabled(cmp, Run(cmp, s, pre), BeginOp(r, op)) && height in Run(cmp, s, pre).sh.stored
    ensures var b := Run(cmp, s, pre);
            && (forall m :: m in Present(b.sh) ==> HasKey(b.sh, m))
            && Legal(cmp, b, AloneActs(r, op, height, n))
            && var e := Run(cmp, b, AloneActs(r, op, height, n));
               OnlyReader(b, e, r) && e.readers[r].pc.At? && RightNode(cmp, b.sh, op, e.readers[r].pc.node)
  {
    var ch0 := InitInv(cmp, s);
    var ch := RunKeepsInv(cmp, s, pre, ch0);
    var b := Run(cmp, s, pre);
    InvLevels(cmp, b, ch);
    hide Initial, TotalPreorder, Inv, Levels, Present, Enabled, Legal, Run, BeginOpOf, AloneActs, RightNode, Loads;
    var k, rd' := LoadsEnd(cmp, b.sh, ch, op, height);
    n := k;
    EndsRight(cmp, b, ch, rd');
    AloneRuns(cmp, b, r, op, height, n, rd');
  }

  lemma InvLevels<K(!new)>(cmp: (K, K) -> int, b: State<K>, ch: seq<seq<nat>>)
    requires Inv(cmp, b, ch)
    ensures Levels(cmp, b.sh, ch)
  {
  }

  // ----- heights

  lemma {:induction false} StoredStays<K(!new)>(cmp: (K, K) -> int, s: State<K>, acts: seq<Action<K>>)
    requires Legal(cmp, s, acts) && s.sh.maxHeight in s.sh.stored
    ensures var e := Run(cmp, s, acts).sh; e.maxHeight in e.stored && s.sh.stored <= e.stored
    decreases |acts|
  {
    if acts != [] {
      hide Load, HeadAsPrev;
      StoredStays(cmp, Step(cmp, s, acts[0]), acts[1..]);
    }
  }

  /** A reader may read the height there is, or any height there has been before. */
  lemma HeightMayBeStale<K(!new)>(cmp: (K, K) -> int, s: State<K>, pre: seq<Action<K>>, post: seq<Action<K>>, r: nat)
    requires Initial(s) && Legal(cmp, s, pre) && Legal(cmp, Run(cmp, s, pre), post)
    requires var e := Run(cmp, Run(cmp, s, pre), post); r < |e.readers| && e.readers[r].pc.LoadHeight?
    ensures var e := Run(cmp, Run(cmp, s, pre), post); Enabled(cmp, e, ReadHeight(r, Run(cmp, s, pre).sh.maxHeight))
  {
    hide Legal, Run;
    StoredStays(cmp, s, pre);
    StoredStays(cmp, Run(cmp, s, pre), post);
  }

  /** Seeking and inserting search alike: a reader that reads the height there is starts where
      the writer starts. */
  lemma SearchesStartAlike<K(!new)>(cmp: (K, K) -> int, s: State<K>, r: nat, k: K)
    requires Enabled(cmp, s, BeginInsert(k)) && Enabled(cmp, s, ReadHeight(r, s.sh.maxHeight))
    ensures var w := Step(cmp, s, BeginInsert(k)).writer;
            var rd := Step(cmp, s, ReadHeight(r, s.sh.maxHeight)).readers[r];
            w.Search? && rd.pc.Descend? && rd.pc.x == w.x && rd.pc.level == w.level
  {
    hide Present;
  }

  /** And from then on each load brings a reader that looks for the first key not below `k`, or
      for the last key below it, where it brings the writer that inserts `k`. */
  lemma SearchesAgree<K(!new)>(cmp: (K, K) -> int, sh: Shared<K>, k: K, x: nat, level: nat, prev: map<nat, nat>,
                               rd: Reader<K>, goal: Goal<K>)
    requires rd.pc == Descend(goal, x, level)
    requires goal == AtLeast(k) || (goal == Below(k) && (x == 0 || KeyBelow(cmp, sh, x, k)))
    ensures var w := WriterStepOf(cmp, sh, Search(k, x, level, prev), 1).1;
            var rd' := DescendStep(cmp, sh, rd);
            && (w.Search? <==> rd'.pc.Descend?)
            && (w.Search? ==> rd'.pc == Descend(goal, w.x, w.level))
  {
  }

  // ----- what a fault is

  /** Pointer `l` of node `n` may be loaded: there is such a node, it has the level, and the
      pointer has been stored. */
  predicate Initialised<K>(sh: Shared<K>, n: nat, l: nat) {
    n < |sh.nodes| && l < sh.nodes[n].height && (n, l) in sh.next
  }

  /** A reader faults exactly when it loads what is not initialised, or when the assertion of the
      search for a smaller key fails. */
  lemma ReaderFaults<K(!new)>(cmp: (K, K) -> int, sh: Shared<K>, rd: Reader<K>)
    ensures rd.pc.Descend? ==>
              (ReaderStepOf(cmp, sh, rd).pc.ReaderFault? <==>
               || !Initialised(sh, rd.pc.x, rd.pc.level)
               || (rd.pc.goal.Below? && rd.pc.x != 0 && !KeyBelow(cmp, sh, rd.pc.x, rd.pc.goal.target)))
    ensures rd.pc.LoadFirst? ==> (ReaderStepOf(cmp, sh, rd).pc.ReaderFault? <==> !Initialised(sh, 0, 0))
    ensures rd.pc.At? && rd.pc.node.Some? ==>
              (NextStepOf(sh, rd).pc.ReaderFault? <==> !Initialised(sh, rd.pc.node.value, 0))
  {
    hide KeyBelow;
  }

  /** The writer faults exactly when it loads what is not initialised, when it needs a predecessor
      it has not got, or when its search ends at its own key. */
  lemma WriterFaults<K(!new)>(cmp: (K, K) -> int, sh: Shared<K>, w: Writer<K>, height: nat)
    requires !w.WriterFault?
    ensures WriterStepOf(cmp, sh, w, height).1.WriterFault? <==>
            match w
            case Search(k, x, level, _) =>
              || !Initialised(sh, x, level)
              || (level == 0 && sh.next[(x, 0)].Some? && HasKey(sh, sh.next[(x, 0)].value)
                  && !KeyBelow(cmp, sh, sh.next[(x, 0)].value, k) && cmp(k, Key(sh, sh.next[(x, 0)].value)) == 0)
            case InitSlot(_, _, prev, _, i) => i !in prev || !Initialised(sh, prev[i], i)
            case Publish(_, _, prev, _, i) => i !in prev
            case _ => false
  {
    hide HeadAsPrev;
  }
}
