/**
  The skip list as one writer and any number of readers share it: every store and every
  load of shared memory is one step, and steps of different threads interleave freely.

  Node 0 is the head. A slot `(n, l)` is in `next` once some store has written pointer `l`
  of node `n`; loading a slot before that, or at a level the node does not have, is a fault.
  `max_height_` is loaded relaxed, so a load may return any value stored so far.
 */
module ConcurrentSkipList {
  import opened Wrappers
  import opened Order

  const MAX_HEIGHT: nat := 12

  // ----- shared memory

  datatype NodeInfo<+K> = NodeInfo(key: Option<K>, height: nat)

  datatype Shared<K> = Shared(
    nodes: seq<NodeInfo<K>>,
    next: map<(nat, nat), Option<nat>>,
    maxHeight: nat,
    stored: set<nat>)

  /** An atomic load of pointer `l` of node `n`; `None` is a fault. */
  function Load<K>(sh: Shared<K>, n: nat, l: nat): Option<Option<nat>> {
    if n < |sh.nodes| && l < sh.nodes[n].height && (n, l) in sh.next then Some(sh.next[(n, l)]) else None
  }

  function Store<K>(sh: Shared<K>, n: nat, l: nat, p: Option<nat>): Shared<K> {
    sh.(next := sh.next[(n, l) := p])
  }

  predicate HasKey<K>(sh: Shared<K>, n: nat) {
    n < |sh.nodes| && sh.nodes[n].key.Some?
  }

  function Key<K>(sh: Shared<K>, n: nat): K
    requires HasKey(sh, n)
  {
    sh.nodes[n].key.value
  }

  /** `keyIsAfterNode` for a node that is not null. */
  predicate KeyBelow<K>(cmp: (K, K) -> int, sh: Shared<K>, n: nat, k: K) {
    HasKey(sh, n) && cmp(Key(sh, n), k) < 0
  }

  /** A path along the bottom level, as the pointers stand in memory. */
  ghost predicate BottomPath<K>(sh: Shared<K>, p: seq<nat>) {
    && p != [] && p[0] == 0
    && forall i :: 0 <= i < |p| - 1 ==> Load(sh, p[i], 0) == Some(Some(p[i + 1]))
  }

  ghost predicate OnBottom<K>(sh: Shared<K>, n: nat) {
    exists p :: BottomPath(sh, p) && p[|p| - 1] == n
  }

  /** The nodes present in the list: those the bottom level reaches from the head. */
  ghost function Present<K>(sh: Shared<K>): set<nat> {
    set n | 0 < n < |sh.nodes| && OnBottom(sh, n)
  }

  // ----- threads

  /** What a descent looks for: the first key at or above a target, the last key below a
      target, or the last node. */
  datatype Goal<K> = AtLeast(target: K) | Below(target: K) | Last

  datatype Op<K> = Seek(target: K) | SeekToFirst | Prev(key: K) | SeekToLast

  datatype ReaderPc<K> =
    | LoadHeight(goal: Goal<K>)
    | Descend(goal: Goal<K>, x: nat, level: nat)
    | LoadFirst
    | At(node: Option<nat>)
    | ReaderFault

  /** An iterator. `snapshot` and `seen` are history: the nodes present when the last
      positioning operation began, and the nodes the iterator has stood on since. */
  datatype Reader<K> = Reader(pc: ReaderPc<K>, op: Op<K>, snapshot: set<nat>, seen: seq<nat>)

  datatype Writer<K> =
    | Idle
    | Search(key: K, x: nat, level: nat, prev: map<nat, nat>)
    | ChooseHeight(key: K, prev: map<nat, nat>)
    | Allocate(key: K, prev: map<nat, nat>, height: nat)
    | InitSlot(x: nat, key: K, prev: map<nat, nat>, height: nat, i: nat)
    | Publish(x: nat, key: K, prev: map<nat, nat>, height: nat, i: nat)
    | WriterFault

  datatype State<K> = State(sh: Shared<K>, writer: Writer<K>, readers: seq<Reader<K>>)

  datatype Action<K> =
    | BeginInsert(key: K)
    | WriterStep(height: nat)
    | BeginOp(r: nat, op: Op<K>)
    | ReadHeight(r: nat, height: nat)
    | ReaderStep(r: nat)
    | Next(r: nat)

  /** The constructor: a head of full height whose pointers are all null. */
  function Init<K>(readers: seq<Reader<K>>): State<K> {
    State(
      Shared([NodeInfo(None, MAX_HEIGHT)], map l | 0 <= l < MAX_HEIGHT :: (0, l) := None, 1, {1}),
      Idle, readers)
  }

  ghost predicate Initial<K>(s: State<K>) {
    && s == Init(s.readers)
    && forall r :: 0 <= r < |s.readers| ==>
         s.readers[r].pc == At(None) && s.readers[r].snapshot == {} && s.readers[r].seen == []
  }

  // ----- steps

  /** Whether a descent moves right, given the pointer it just loaded. */
  predicate MovesRight<K>(cmp: (K, K) -> int, sh: Shared<K>, goal: Goal<K>, next: Option<nat>) {
    next.Some? && (goal.Last? || KeyBelow(cmp, sh, next.value, goal.target))
  }

  function Visit<K>(r: Reader<K>, n: Option<nat>): Reader<K> {
    r.(pc := At(n), seen := if n.Some? then r.seen + [n.value] else r.seen)
  }

  /** One load of a descent; the result of `AtLeast` is the pointer loaded last, that of the
      other two is the node stood on, the head counting as no node. */
  function DescendStep<K>(cmp: (K, K) -> int, sh: Shared<K>, r: Reader<K>): Reader<K>
    requires r.pc.Descend?
  {
    var Descend(goal, x, level) := r.pc;
    if goal.Below? && x != 0 && !KeyBelow(cmp, sh, x, goal.target) then r.(pc := ReaderFault)
    else match Load(sh, x, level)
      case None => r.(pc := ReaderFault)
      case Some(next) =>
        if MovesRight(cmp, sh, goal, next) then r.(pc := Descend(goal, next.value, level))
        else if level > 0 then r.(pc := Descend(goal, x, level - 1))
        else if goal.AtLeast? then Visit(r, next)
        else Visit(r, if x == 0 then None else Some(x))
  }

  function ReaderStepOf<K>(cmp: (K, K) -> int, sh: Shared<K>, r: Reader<K>): Reader<K> {
    match r.pc
    case Descend(_, _, _) => DescendStep(cmp, sh, r)
    case LoadFirst =>
      (match Load(sh, 0, 0)
       case None => r.(pc := ReaderFault)
       case Some(n) => Visit(r, n))
    case _ => r
  }

  function NextStepOf<K>(sh: Shared<K>, r: Reader<K>): Reader<K> {
    if r.pc.At? && r.pc.node.Some? then
      match Load(sh, r.pc.node.value, 0)
      case None => r.(pc := ReaderFault)
      case Some(n) => Visit(r, n)
    else r
  }

  ghost function BeginOpOf<K>(sh: Shared<K>, op: Op<K>): Reader<K> {
    var pc := match op
      case Seek(t) => LoadHeight(AtLeast(t))
      case SeekToFirst => LoadFirst
      case Prev(k) => LoadHeight(Below(k))
      case SeekToLast => LoadHeight(Last);
    Reader(pc, op, Present(sh), [])
  }

  /** `prev[l] = head_` for the levels that were empty so far. */
  function HeadAsPrev(prev: map<nat, nat>, from: nat, end: nat): (r: map<nat, nat>)
    requires from <= end
    ensures forall l :: from <= l < end ==> l in r && r[l] == 0
    ensures forall l :: l in prev && (l < from || l >= end) ==> l in r && r[l] == prev[l]
    decreases end - from
  {
    if from == end then prev else HeadAsPrev(prev[from := 0], from + 1, end)
  }

  /** One step of `insert`: a load of the search, the store of the height, the allocation,
      or one of the two stores of the linking loop. */
  function WriterStepOf<K>(cmp: (K, K) -> int, sh: Shared<K>, w: Writer<K>, height: nat): (Shared<K>, Writer<K>) {
    match w
    case Search(key, x, level, prev) =>
      (match Load(sh, x, level)
       case None => (sh, WriterFault)
       case Some(next) =>
         if MovesRight(cmp, sh, AtLeast(key), next) then (sh, Search(key, next.value, level, prev))
         else if level > 0 then (sh, Search(key, x, level - 1, prev[level := x]))
         else if next.Some? && HasKey(sh, next.value) && cmp(key, Key(sh, next.value)) == 0 then (sh, WriterFault)
         else (sh, ChooseHeight(key, prev[0 := x])))
    case ChooseHeight(key, prev) =>
      if height > sh.maxHeight then
        var raised := sh.(maxHeight := height, stored := sh.stored + {height});
        (raised, Allocate(key, HeadAsPrev(prev, sh.maxHeight, height), height))
      else (sh, Allocate(key, prev, height))
    case Allocate(key, prev, h) =>
      (sh.(nodes := sh.nodes + [NodeInfo(Some(key), h)]), InitSlot(|sh.nodes|, key, prev, h, 0))
    case InitSlot(x, key, prev, h, i) =>
      if i !in prev then (sh, WriterFault)
      else (match Load(sh, prev[i], i)
            case None => (sh, WriterFault)
            case Some(n) => (Store(sh, x, i, n), Publish(x, key, prev, h, i)))
    case Publish(x, key, prev, h, i) =>
      if i !in prev then (sh, WriterFault)
      else (Store(sh, prev[i], i, Some(x)), if i + 1 < h then InitSlot(x, key, prev, h, i + 1) else Idle)
    case _ => (sh, w)
  }

  /** When an action may happen. `insert` must not be given a key that is present; `prev`
      and `next` need a valid iterator; heights come from `randomHeight`. */
  ghost predicate Enabled<K(!new)>(cmp: (K, K) -> int, s: State<K>, a: Action<K>) {
    match a
    case BeginInsert(key) =>
      && s.writer.Idle?
      && forall n :: n in Present(s.sh) && HasKey(s.sh, n) ==> cmp(Key(s.sh, n), key) != 0
    case WriterStep(height) => !s.writer.Idle? && 1 <= height <= MAX_HEIGHT
    case BeginOp(r, op) =>
      && r < |s.readers| && s.readers[r].pc.At?
      && (op.Prev? ==> s.readers[r].pc.node.Some? && HasKey(s.sh, s.readers[r].pc.node.value)
                       && op.key == Key(s.sh, s.readers[r].pc.node.value))
    case ReadHeight(r, height) => r < |s.readers| && s.readers[r].pc.LoadHeight? && height in s.sh.stored
    case ReaderStep(r) => r < |s.readers| && (s.readers[r].pc.Descend? || s.readers[r].pc.LoadFirst?)
    case Next(r) => r < |s.readers| && s.readers[r].pc.At? && s.readers[r].pc.node.Some?
  }

  ghost function Step<K(!new)>(cmp: (K, K) -> int, s: State<K>, a: Action<K>): State<K>
    requires Enabled(cmp, s, a)
  {
    match a
    case BeginInsert(key) =>
      s.(writer := Search(key, 0, if s.sh.maxHeight == 0 then 0 else s.sh.maxHeight - 1, map[]))
    case WriterStep(height) =>
      var (sh, w) := WriterStepOf(cmp, s.sh, s.writer, height);
      s.(sh := sh, writer := w)
    case BeginOp(r, op) => s.(readers := s.readers[r := BeginOpOf(s.sh, op)])
    case ReadHeight(r, height) =>
      var rd := s.readers[r];
      s.(readers := s.readers[r := rd.(pc := Descend(rd.pc.goal, 0, if height == 0 then 0 else height - 1))])
    case ReaderStep(r) => s.(readers := s.readers[r := ReaderStepOf(cmp, s.sh, s.readers[r])])
    case Next(r) => s.(readers := s.readers[r := NextStepOf(s.sh, s.readers[r])])
  }

  /** A finite run: every action is enabled where it happens. */
  ghost predicate Legal<K(!new)>(cmp: (K, K) -> int, s: State<K>, acts: seq<Action<K>>)
    decreases |acts|
  {
    acts == [] || (Enabled(cmp, s, acts[0]) && Legal(cmp, Step(cmp, s, acts[0]), acts[1..]))
  }

  ghost function Run<K(!new)>(cmp: (K, K) -> int, s: State<K>, acts: seq<Action<K>>): State<K>
    requires Legal(cmp, s, acts)
    decreases |acts|
  {
    if acts == [] then s else Run(cmp, Step(cmp, s, acts[0]), acts[1..])
  }

  /** The run is legal and ends in `e`. */
  ghost predicate RunsTo<K(!new)>(cmp: (K, K) -> int, s: State<K>, acts: seq<Action<K>>, e: State<K>) {
    Legal(cmp, s, acts) && Run(cmp, s, acts) == e
  }

  lemma RunsFirst<K(!new)>(cmp: (K, K) -> int, s: State<K>, a: Action<K>, rest: seq<Action<K>>, e: State<K>)
    requires Enabled(cmp, s, a) && RunsTo(cmp, Step(cmp, s, a), rest, e)
    ensures RunsTo(cmp, s, [a] + rest, e)
  {
    hide Enabled, Step;
    assert ([a] + rest)[1..] == rest && ([a] + rest)[0] == a;
  }

  // ----- the invariant

  /** The pointer of the node at `j` is to the next node of `c`, or null at the end. */
  ghost predicate LinkAt<K>(sh: Shared<K>, c: seq<nat>, l: nat, j: nat)
    requires j < |c|
  {
    Load(sh, c[j], l) == Some(if j + 1 < |c| then Some(c[j + 1]) else None)
  }

  /** `c` lists level `l` from the head to null, in strictly ascending key order. */
  ghost predicate Chain<K>(cmp: (K, K) -> int, sh: Shared<K>, c: seq<nat>, l: nat) {
    && c != [] && c[0] == 0
    && (forall j :: 0 <= j < |c| ==> LinkAt(sh, c, l, j))
    && (forall j :: 1 <= j < |c| ==> HasKey(sh, c[j]))
    && (forall i, j :: 1 <= i < j < |c| ==> cmp(Key(sh, c[i]), Key(sh, c[j])) < 0)
  }

  ghost predicate Within(a: seq<nat>, b: seq<nat>) {
    forall n :: n in a ==> n in b
  }

  ghost predicate Levels<K>(cmp: (K, K) -> int, sh: Shared<K>, ch: seq<seq<nat>>) {
    && |ch| == MAX_HEIGHT
    && (forall l :: 0 <= l < MAX_HEIGHT ==> Chain(cmp, sh, ch[l], l))
    && (forall l, m :: 0 <= l < m < MAX_HEIGHT ==> Within(ch[m], ch[l]))
    && 1 <= sh.maxHeight <= MAX_HEIGHT
    && (forall h :: h in sh.stored ==> 1 <= h <= MAX_HEIGHT)
    && (forall l :: sh.maxHeight <= l < MAX_HEIGHT ==> ch[l] == [0])
    && sh.nodes != [] && sh.nodes[0] == NodeInfo(None, MAX_HEIGHT)
  }

  /** `p` is the last node before `k` on the chain `c`. */
  ghost predicate IsPrev<K>(cmp: (K, K) -> int, sh: Shared<K>, c: seq<nat>, p: nat, k: K) {
    exists j :: PrevAt(cmp, sh, c, p, k, j)
  }

  ghost predicate PrevAt<K>(cmp: (K, K) -> int, sh: Shared<K>, c: seq<nat>, p: nat, k: K, j: nat) {
    && j < |c| && c[j] == p
    && (j > 0 ==> KeyBelow(cmp, sh, p, k))
    && (j + 1 < |c| ==> HasKey(sh, c[j + 1]) && cmp(k, Key(sh, c[j + 1])) < 0)
  }

  ghost predicate PrevOn<K>(cmp: (K, K) -> int, sh: Shared<K>, ch: seq<seq<nat>>, prev: map<nat, nat>, k: K,
                            from: nat, end: nat)
    requires |ch| == MAX_HEIGHT
  {
    end <= MAX_HEIGHT && forall l :: from <= l < end ==> l in prev && IsPrev(cmp, sh, ch[l], prev[l], k)
  }

  ghost predicate WriterInv<K>(cmp: (K, K) -> int, sh: Shared<K>, ch: seq<seq<nat>>, w: Writer<K>)
    requires |ch| == MAX_HEIGHT
  {
    match w
    case Idle => true
    case Search(k, x, level, prev) =>
      && level < sh.maxHeight <= MAX_HEIGHT
      && x in ch[level] && (x != 0 ==> KeyBelow(cmp, sh, x, k))
      && (forall n :: n in ch[0] && HasKey(sh, n) ==> cmp(Key(sh, n), k) != 0)
      && PrevOn(cmp, sh, ch, prev, k, level + 1, sh.maxHeight)
    case ChooseHeight(k, prev) => PrevOn(cmp, sh, ch, prev, k, 0, sh.maxHeight)
    case Allocate(k, prev, h) => 1 <= h <= sh.maxHeight && PrevOn(cmp, sh, ch, prev, k, 0, h)
    case InitSlot(x, k, prev, h, i) => Linking(cmp, sh, ch, x, k, prev, h, i)
    case Publish(x, k, prev, h, i) =>
      && Linking(cmp, sh, ch, x, k, prev, h, i)
      && Load(sh, x, i).Some? && Load(sh, x, i) == Load(sh, prev[i], i)
    case WriterFault => false
  }

  ghost predicate Linking<K>(cmp: (K, K) -> int, sh: Shared<K>, ch: seq<seq<nat>>, x: nat, k: K,
                             prev: map<nat, nat>, h: nat, i: nat)
    requires |ch| == MAX_HEIGHT
  {
    && i < h <= sh.maxHeight && h <= MAX_HEIGHT
    && 0 < x < |sh.nodes| && sh.nodes[x] == NodeInfo(Some(k), h)
    && (forall l :: 0 <= l < i ==> x in ch[l])
    && (forall l :: i <= l < MAX_HEIGHT ==> x !in ch[l])
    && PrevOn(cmp, sh, ch, prev, k, i, h)
  }

  /** The nodes stood on ascend, and are all in the list. */
  ghost predicate SeenInv<K>(cmp: (K, K) -> int, sh: Shared<K>, bottom: seq<nat>, seen: seq<nat>) {
    && (forall i :: 0 <= i < |seen| ==> seen[i] in bottom && HasKey(sh, seen[i]))
    && (forall i, j :: 0 <= i < j < |seen| ==> cmp(Key(sh, seen[i]), Key(sh, seen[j])) < 0)
  }

  /** A node of the snapshot that the scan has not stood on is still ahead of it. */
  ghost predicate Ahead<K>(cmp: (K, K) -> int, sh: Shared<K>, node: Option<nat>, n: nat)
    requires HasKey(sh, n)
  {
    node.Some? && HasKey(sh, node.value) && cmp(Key(sh, node.value), Key(sh, n)) < 0
  }

  /** Nothing of the snapshot is skipped: which nodes the operation owes its caller, and
      that each of them was stood on or is still ahead. */
  ghost predicate Covers<K>(cmp: (K, K) -> int, sh: Shared<K>, r: Reader<K>, node: Option<nat>)
    requires forall n :: n in r.snapshot || n in r.seen ==> HasKey(sh, n)
  {
    match r.op
    case Seek(t) =>
      && (forall i :: 0 <= i < |r.seen| ==> cmp(t, Key(sh, r.seen[i])) <= 0)
      && (forall n :: n in r.snapshot && cmp(t, Key(sh, n)) <= 0 ==> n in r.seen || Ahead(cmp, sh, node, n))
    case SeekToFirst =>
      forall n :: n in r.snapshot ==> n in r.seen || Ahead(cmp, sh, node, n)
    case Prev(k) =>
      && (r.seen != [] ==> cmp(Key(sh, r.seen[0]), k) < 0)
      && (forall n :: n in r.snapshot && cmp(Key(sh, n), k) < 0 ==>
            r.seen != [] && cmp(Key(sh, n), Key(sh, r.seen[0])) <= 0)
      && (forall n :: n in r.snapshot && r.seen != [] && cmp(Key(sh, r.seen[0]), Key(sh, n)) <= 0 ==>
            n in r.seen || Ahead(cmp, sh, node, n))
    case SeekToLast =>
      forall n :: n in r.snapshot ==> r.seen != [] && cmp(Key(sh, n), Key(sh, r.seen[0])) <= 0
  }

  ghost predicate GoalFits<K>(op: Op<K>, goal: Goal<K>) {
    match op
    case Seek(t) => goal == AtLeast(t)
    case Prev(k) => goal == Below(k)
    case SeekToLast => goal == Last
    case SeekToFirst => false
  }

  ghost predicate ReaderInv<K>(cmp: (K, K) -> int, sh: Shared<K>, ch: seq<seq<nat>>, r: Reader<K>)
    requires |ch| == MAX_HEIGHT
  {
    && (forall n :: n in r.snapshot ==> n in ch[0] && HasKey(sh, n))
    && SeenInv(cmp, sh, ch[0], r.seen)
    && match r.pc
       case LoadHeight(goal) => r.seen == [] && GoalFits(r.op, goal)
       case LoadFirst => r.seen == [] && r.op.SeekToFirst?
       case Descend(goal, x, level) =>
         && r.seen == [] && GoalFits(r.op, goal)
         && level < MAX_HEIGHT && x in ch[level]
         && (x != 0 && !goal.Last? ==> KeyBelow(cmp, sh, x, goal.target))
       case At(node) =>
         && (node.Some? ==> r.seen != [] && node.value == r.seen[|r.seen| - 1])
         && Covers(cmp, sh, r, node)
       case ReaderFault => false
  }

  /** The writer has still to link node `n` on level `l`. */
  predicate ToLink<K>(w: Writer<K>, n: nat, l: nat) {
    (w.InitSlot? || w.Publish?) && w.x == n && w.i <= l
  }

  /** Every node is on all the levels of its height, but for those the writer is still at. */
  ghost predicate Complete<K>(sh: Shared<K>, ch: seq<seq<nat>>, w: Writer<K>)
    requires |ch| == MAX_HEIGHT
  {
    && (forall n :: 0 <= n < |sh.nodes| ==> sh.nodes[n].height <= MAX_HEIGHT)
    && (forall l, n :: 0 <= l < MAX_HEIGHT && 0 <= n < |sh.nodes| && l < sh.nodes[n].height ==>
          n in ch[l] || ToLink(w, n, l))
  }

  ghost predicate Inv<K>(cmp: (K, K) -> int, s: State<K>, ch: seq<seq<nat>>) {
    && Levels(cmp, s.sh, ch)
    && WriterInv(cmp, s.sh, ch, s.writer)
    && Complete(s.sh, ch, s.writer)
    && forall r :: 0 <= r < |s.readers| ==> ReaderInv(cmp, s.sh, ch, s.readers[r])
  }

  // ----- what holds of a chain in memory

  /** Order of positions is order of keys. */
  lemma ChainOrder<K(!new)>(cmp: (K, K) -> int, sh: Shared<K>, c: seq<nat>, l: nat, i: nat, j: nat)
    requires TotalPreorder(cmp) && Chain(cmp, sh, c, l) && 1 <= i < |c| && 1 <= j < |c|
    ensures cmp(Key(sh, c[i]), Key(sh, c[j])) < 0 <==> i < j
    ensures cmp(Key(sh, c[i]), Key(sh, c[j])) == 0 <==> i == j
  {
    assert cmp(Key(sh, c[i]), Key(sh, c[i])) == 0;
    if i < j {
      assert cmp(Key(sh, c[i]), Key(sh, c[j])) < 0;
    } else if j < i {
      assert cmp(Key(sh, c[j]), Key(sh, c[i])) < 0;
    }
  }

  lemma ChainLoad<K>(cmp: (K, K) -> int, sh: Shared<K>, c: seq<nat>, l: nat, j: nat)
    requires Chain(cmp, sh, c, l) && j < |c|
    ensures Load(sh, c[j], l) == Some(if j + 1 < |c| then Some(c[j + 1]) else None)
  {
    assert LinkAt(sh, c, l, j);
  }

  lemma ChainStep<K>(cmp: (K, K) -> int, sh: Shared<K>, c: seq<nat>, l: nat, j: nat)
    requires Chain(cmp, sh, c, l) && 1 <= j < |c| - 1
    ensures HasKey(sh, c[j]) && HasKey(sh, c[j + 1]) && cmp(Key(sh, c[j]), Key(sh, c[j + 1])) < 0
  {
  }

  /** A path along the bottom pointers is a prefix of the chain. */
  lemma {:induction false} PathIsPrefix<K>(cmp: (K, K) -> int, sh: Shared<K>, c: seq<nat>, p: seq<nat>)
    requires Chain(cmp, sh, c, 0) && BottomPath(sh, p)
    ensures |p| <= |c| && p == c[..|p|]
  {
    if |p| > 1 {
      var q := p[..|p| - 1];
      PathIsPrefix(cmp, sh, c, q);
      var j := |q| - 1;
      assert 0 <= j < |c|;
      ChainLoad(cmp, sh, c, 0, j);
      assert q[j] == p[j];
      assert Load(sh, p[j], 0) == Some(Some(p[j + 1]));
      assert c[j] == p[j];
      assert p == q + [p[j + 1]];
    } else {
      assert p == [0] == c[..1];
    }
  }

  /** Present means on the bottom chain. */
  lemma PresentIsBottom<K>(cmp: (K, K) -> int, sh: Shared<K>, c: seq<nat>)
    requires Chain(cmp, sh, c, 0) && |sh.nodes| > 0 && sh.nodes[0].key.None?
    ensures forall n :: n in Present(sh) <==> n in c && n != 0
    ensures forall n :: n in Present(sh) ==> HasKey(sh, n)
  {
    forall n | n in c
      ensures OnBottom(sh, n)
    {
      var j: nat :| j < |c| && c[j] == n;
      var p := c[..j + 1];
      forall i | 0 <= i < |p| - 1
        ensures Load(sh, p[i], 0) == Some(Some(p[i + 1]))
      {
        ChainLoad(cmp, sh, c, 0, i);
      }
      assert BottomPath(sh, p);
    }
    forall n | OnBottom(sh, n)
      ensures n in c
    {
      var p :| BottomPath(sh, p) && p[|p| - 1] == n;
      PathIsPrefix(cmp, sh, c, p);
    }
    forall n | n in c && n != 0
      ensures HasKey(sh, n)
    {
      var j: nat :| j < |c| && c[j] == n;
    }
  }

  // ----- readers

  /** Shared memory moved on: nodes and levels only gain. */
  ghost predicate Grows<K>(sh: Shared<K>, ch: seq<seq<nat>>, sh': Shared<K>, ch': seq<seq<nat>>) {
    && |ch| == |ch'| == MAX_HEIGHT
    && |sh.nodes| <= |sh'.nodes|
    && (forall n :: 0 <= n < |sh.nodes| ==> sh'.nodes[n] == sh.nodes[n])
    && (forall l :: 0 <= l < MAX_HEIGHT ==> Within(ch[l], ch'[l]))
  }

  /** What a reader relies on survives every store of the writer. */
  lemma ReaderInvGrows<K>(cmp: (K, K) -> int, sh: Shared<K>, ch: seq<seq<nat>>, sh': Shared<K>, ch': seq<seq<nat>>,
                          r: Reader<K>)
    requires Grows(sh, ch, sh', ch') && ReaderInv(cmp, sh, ch, r)
    ensures ReaderInv(cmp, sh', ch', r)
  {
    assert forall n :: HasKey(sh, n) ==> HasKey(sh', n) && Key(sh', n) == Key(sh, n);
    assert Within(ch[0], ch'[0]);
  }

  lemma BeginOpInv<K>(cmp: (K, K) -> int, sh: Shared<K>, ch: seq<seq<nat>>, op: Op<K>)
    requires Levels(cmp, sh, ch)
    ensures ReaderInv(cmp, sh, ch, BeginOpOf(sh, op))
  {
    PresentIsBottom(cmp, sh, ch[0]);
  }

  /** The node stood on at level `l`, its place on the chain, and what a load there sees. */
  ghost predicate Stands<K>(cmp: (K, K) -> int, sh: Shared<K>, c: seq<nat>, l: nat, x: nat, j: nat) {
    && j < |c| && c[j] == x && (j == 0 <==> x == 0)
    && Load(sh, x, l) == Some(if j + 1 < |c| then Some(c[j + 1]) else None)
    && (j > 0 ==> HasKey(sh, x))
    && (j + 1 < |c| ==> HasKey(sh, c[j + 1]) && c[j + 1] != 0)
  }

  lemma StandsOn<K>(cmp: (K, K) -> int, sh: Shared<K>, ch: seq<seq<nat>>, l: nat, x: nat) returns (j: nat)
    requires Levels(cmp, sh, ch) && l < MAX_HEIGHT && x in ch[l]
    ensures Stands(cmp, sh, ch[l], l, x, j)
  {
    j :| 0 <= j < |ch[l]| && ch[l][j] == x;
    ChainLoad(cmp, sh, ch[l], l, j);
  }

  /** No node of the bottom level lies strictly between neighbours `x` and `next`. */
  ghost predicate NoneBetween<K>(cmp: (K, K) -> int, sh: Shared<K>, n: nat, x: nat, next: Option<nat>)
    requires HasKey(sh, n) && (x != 0 ==> HasKey(sh, x)) && (next.Some? ==> HasKey(sh, next.value))
  {
    || (x != 0 && (n == x || cmp(Key(sh, n), Key(sh, x)) < 0))
    || (next.Some? && (n == next.value || cmp(Key(sh, next.value), Key(sh, n)) < 0))
  }

  lemma Neighbours<K(!new)>(cmp: (K, K) -> int, sh: Shared<K>, c: seq<nat>, x: nat, j: nat, s: set<nat>)
    requires TotalPreorder(cmp) && Chain(cmp, sh, c, 0) && Stands(cmp, sh, c, 0, x, j)
    requires sh.nodes[0].key.None?
    requires forall n :: n in s ==> n in c && HasKey(sh, n)
    ensures forall n :: n in s ==> NoneBetween(cmp, sh, n, x, Load(sh, x, 0).value)
  {
    forall n | n in s
      ensures NoneBetween(cmp, sh, n, x, Load(sh, x, 0).value)
    {
      var m :| 0 <= m < |c| && c[m] == n;
      if m <= j {
        ChainOrder(cmp, sh, c, 0, m, j);
      } else if m > j + 1 {
        ChainOrder(cmp, sh, c, 0, j + 1, m);
      }
    }
  }

  /** What the three descents owe follows from there being nothing between the two nodes
      where they stop. */
  lemma SeekCovers<K(!new)>(cmp: (K, K) -> int, sh: Shared<K>, t: K, x: nat, next: Option<nat>, snapshot: set<nat>)
    requires TotalPreorder(cmp) && (x != 0 ==> KeyBelow(cmp, sh, x, t))
    requires next.Some? ==> HasKey(sh, next.value) && cmp(Key(sh, next.value), t) >= 0
    requires forall n :: n in snapshot ==> HasKey(sh, n) && NoneBetween(cmp, sh, n, x, next)
    ensures Covers(cmp, sh, Visit(Reader(LoadFirst, Seek(t), snapshot, []), next), next)
  {
    hide TotalPreorder;
    forall n | n in snapshot && cmp(t, Key(sh, n)) <= 0
      ensures next.Some? && (n == next.value || Ahead(cmp, sh, next, n))
    {
      if x != 0 && cmp(Key(sh, n), Key(sh, x)) < 0 { LtLe(cmp, Key(sh, n), Key(sh, x), t); }
      Flip(cmp, t, Key(sh, n));
    }
    if next.Some? { Flip(cmp, t, Key(sh, next.value)); }
  }

  lemma PrevCovers<K(!new)>(cmp: (K, K) -> int, sh: Shared<K>, k: K, x: nat, next: Option<nat>, snapshot: set<nat>)
    requires TotalPreorder(cmp) && (x != 0 ==> KeyBelow(cmp, sh, x, k))
    requires next.Some? ==> HasKey(sh, next.value) && cmp(Key(sh, next.value), k) >= 0
    requires forall n :: n in snapshot ==> HasKey(sh, n) && NoneBetween(cmp, sh, n, x, next)
    ensures var node := if x == 0 then None else Some(x);
            Covers(cmp, sh, Visit(Reader(LoadFirst, Prev(k), snapshot, []), node), node)
  {
  }

  lemma LastCovers<K(!new)>(cmp: (K, K) -> int, sh: Shared<K>, x: nat, snapshot: set<nat>)
    requires TotalPreorder(cmp) && (x != 0 ==> HasKey(sh, x))
    requires forall n :: n in snapshot ==> HasKey(sh, n) && NoneBetween(cmp, sh, n, x, None)
    ensures var node := if x == 0 then None else Some(x);
            Covers(cmp, sh, Visit(Reader(LoadFirst, SeekToLast, snapshot, []), node), node)
  {
  }

  lemma CoversIgnoresPc<K>(cmp: (K, K) -> int, sh: Shared<K>, r: Reader<K>, pc: ReaderPc<K>, node: Option<nat>)
    requires forall n :: n in r.snapshot || n in r.seen ==> HasKey(sh, n)
    ensures Covers(cmp, sh, r.(pc := pc), node) == Covers(cmp, sh, r, node)
  {
  }

  /** A descent ends at the bottom level with nothing of the snapshot left behind. */
  lemma BottomKeepsInv<K(!new)>(cmp: (K, K) -> int, sh: Shared<K>, ch: seq<seq<nat>>, r: Reader<K>)
    requires TotalPreorder(cmp) && Levels(cmp, sh, ch) && ReaderInv(cmp, sh, ch, r)
    requires r.pc.Descend? && r.pc.level == 0
    ensures ReaderInv(cmp, sh, ch, DescendStep(cmp, sh, r))
  {
    hide Chain, Load, Within, TotalPreorder, Covers, NoneBetween;
    var Descend(goal, x, _) := r.pc;
    var j := StandsOn(cmp, sh, ch, 0, x);
    var next := Load(sh, x, 0).value;
    if !MovesRight(cmp, sh, goal, next) {
      Neighbours(cmp, sh, ch[0], x, j, r.snapshot);
      match goal {
        case AtLeast(t) => SeekCovers(cmp, sh, t, x, next, r.snapshot);
        case Below(k) => PrevCovers(cmp, sh, k, x, next, r.snapshot);
        case Last => LastCovers(cmp, sh, x, r.snapshot);
      }
      var r' := DescendStep(cmp, sh, r);
      CoversIgnoresPc(cmp, sh, Visit(Reader(LoadFirst, r.op, r.snapshot, []), r'.pc.node), r'.pc, r'.pc.node);
    }
  }

  /** Every load of a descent hits an initialised slot the node has, and keeps the invariant. */
  lemma DescendKeepsInv<K(!new)>(cmp: (K, K) -> int, sh: Shared<K>, ch: seq<seq<nat>>, r: Reader<K>)
    requires TotalPreorder(cmp) && Levels(cmp, sh, ch) && ReaderInv(cmp, sh, ch, r)
    requires r.pc.Descend?
    ensures ReaderInv(cmp, sh, ch, DescendStep(cmp, sh, r))
  {
    hide TotalPreorder, Load, Covers, Chain;
    var Descend(goal, x, level) := r.pc;
    if level > 0 {
      var j := StandsOn(cmp, sh, ch, level, x);
      assert Within(ch[level], ch[level - 1]);
    } else {
      BottomKeepsInv(cmp, sh, ch, r);
    }
  }

  lemma FirstKeepsInv<K(!new)>(cmp: (K, K) -> int, sh: Shared<K>, ch: seq<seq<nat>>, r: Reader<K>)
    requires TotalPreorder(cmp) && Levels(cmp, sh, ch) && ReaderInv(cmp, sh, ch, r)
    requires r.pc.LoadFirst?
    ensures ReaderInv(cmp, sh, ch, ReaderStepOf(cmp, sh, r))
  {
    var j := StandsOn(cmp, sh, ch, 0, 0);
    Neighbours(cmp, sh, ch[0], 0, j, r.snapshot);
  }

  /** `next()` stands on the following node: the keys go on ascending and no snapshot node
      is passed over. */
  lemma NextKeepsInv<K(!new)>(cmp: (K, K) -> int, sh: Shared<K>, ch: seq<seq<nat>>, r: Reader<K>)
    requires TotalPreorder(cmp) && Levels(cmp, sh, ch) && ReaderInv(cmp, sh, ch, r)
    requires r.pc.At? && r.pc.node.Some?
    ensures ReaderInv(cmp, sh, ch, NextStepOf(sh, r))
  {
    var c, x := ch[0], r.pc.node.value;
    assert x in c && HasKey(sh, x) && r.seen != [] && r.seen[|r.seen| - 1] == x;
    hide *;
    var j := StandsOn(cmp, sh, ch, 0, x);
    StepsTo(cmp, sh, ch, r, x, j);
  }

  lemma StepsTo<K(!new)>(cmp: (K, K) -> int, sh: Shared<K>, ch: seq<seq<nat>>, r: Reader<K>, x: nat, j: nat)
    requires TotalPreorder(cmp) && Levels(cmp, sh, ch) && ReaderInv(cmp, sh, ch, r)
    requires r.pc == At(Some(x)) && r.seen != [] && r.seen[|r.seen| - 1] == x && HasKey(sh, x)
    requires Stands(cmp, sh, ch[0], 0, x, j)
    ensures ReaderInv(cmp, sh, ch, NextStepOf(sh, r))
  {
    hide Chain, TotalPreorder, Covers, NoneBetween, Load, Within, SeenInv;
    var next := Load(sh, x, 0).value;
    Neighbours(cmp, sh, ch[0], x, j, r.snapshot);
    assert x != 0;
    if next.Some? {
      ChainStep(cmp, sh, ch[0], 0, j);
      SeenGrows(cmp, sh, ch[0], r.seen, next.value);
    }
    SeenHaveKeys(cmp, sh, ch[0], r.seen);
    CoversNext(cmp, sh, r, x, next);
  }

  lemma SeenHaveKeys<K>(cmp: (K, K) -> int, sh: Shared<K>, c: seq<nat>, seen: seq<nat>)
    requires SeenInv(cmp, sh, c, seen)
    ensures forall n :: n in seen ==> n in c && HasKey(sh, n)
  {
  }

  lemma CoversNext<K(!new)>(cmp: (K, K) -> int, sh: Shared<K>, r: Reader<K>, x: nat, next: Option<nat>)
    requires TotalPreorder(cmp) && x != 0 && HasKey(sh, x) && r.seen != [] && r.seen[|r.seen| - 1] == x
    requires next.Some? ==> HasKey(sh, next.value) && cmp(Key(sh, x), Key(sh, next.value)) < 0
    requires forall n :: n in r.snapshot || n in r.seen ==> HasKey(sh, n)
    requires forall n :: n in r.snapshot ==> NoneBetween(cmp, sh, n, x, next)
    requires Covers(cmp, sh, r, Some(x))
    ensures Covers(cmp, sh, Visit(r, next), next)
  {
    var r' := Visit(r, next);
    forall n | n in r.snapshot && Ahead(cmp, sh, Some(x), n)
      ensures n in r'.seen || Ahead(cmp, sh, next, n)
    {
      assert NoneBetween(cmp, sh, n, x, next);
    }
  }

  lemma SeenGrows<K(!new)>(cmp: (K, K) -> int, sh: Shared<K>, c: seq<nat>, seen: seq<nat>, n: nat)
    requires TotalPreorder(cmp) && SeenInv(cmp, sh, c, seen) && seen != []
    requires n in c && HasKey(sh, n) && cmp(Key(sh, seen[|seen| - 1]), Key(sh, n)) < 0
    ensures SeenInv(cmp, sh, c, seen + [n])
  {
    var x := seen[|seen| - 1];
    forall i | 0 <= i < |seen|
      ensures cmp(Key(sh, seen[i]), Key(sh, n)) < 0
    {
      if i < |seen| - 1 { LtLe(cmp, Key(sh, seen[i]), Key(sh, x), Key(sh, n)); }
    }
  }

  // ----- the writer

  /** A store elsewhere, or new nodes, leave a chain as it is. */
  lemma ChainKept<K>(cmp: (K, K) -> int, sh: Shared<K>, sh': Shared<K>, c: seq<nat>, l: nat)
    requires Chain(cmp, sh, c, l)
    requires forall n :: n in c ==> Load(sh', n, l) == Load(sh, n, l)
    requires forall n :: n in c ==> n < |sh'.nodes| && (n < |sh.nodes| ==> sh'.nodes[n] == sh.nodes[n])
    ensures Chain(cmp, sh', c, l)
  {
    forall j | 0 <= j < |c|
      ensures LinkAt(sh', c, l, j)
    {
      ChainLoad(cmp, sh, c, l, j);
    }
  }

  lemma ChainNodes<K>(cmp: (K, K) -> int, sh: Shared<K>, c: seq<nat>, l: nat)
    requires Chain(cmp, sh, c, l)
    ensures forall n :: n in c ==> n < |sh.nodes| && l < sh.nodes[n].height && Load(sh, n, l).Some?
  {
    forall n | n in c
      ensures n < |sh.nodes| && l < sh.nodes[n].height && Load(sh, n, l).Some?
    {
      var j :| 0 <= j < |c| && c[j] == n;
      ChainLoad(cmp, sh, c, l, j);
    }
  }

  lemma LevelsKept<K>(cmp: (K, K) -> int, sh: Shared<K>, sh': Shared<K>, ch: seq<seq<nat>>)
    requires Levels(cmp, sh, ch)
    requires |sh.nodes| <= |sh'.nodes| && forall n :: 0 <= n < |sh.nodes| ==> sh'.nodes[n] == sh.nodes[n]
    requires forall l, n :: 0 <= l < MAX_HEIGHT && n in ch[l] ==> Load(sh', n, l) == Load(sh, n, l)
    requires sh.maxHeight <= sh'.maxHeight <= MAX_HEIGHT
    requires forall h :: h in sh'.stored ==> h in sh.stored || h == sh'.maxHeight
    ensures Levels(cmp, sh', ch) && Grows(sh, ch, sh', ch)
  {
    forall l | 0 <= l < MAX_HEIGHT
      ensures Chain(cmp, sh', ch[l], l)
    {
      ChainNodes(cmp, sh, ch[l], l);
      ChainKept(cmp, sh, sh', ch[l], l);
    }
  }

  /** Predecessors found for a key stay predecessors while the levels do not change. */
  lemma PrevOnKept<K>(cmp: (K, K) -> int, sh: Shared<K>, sh': Shared<K>, ch: seq<seq<nat>>, ch': seq<seq<nat>>,
                      prev: map<nat, nat>, k: K, from: nat, end: nat)
    requires |ch| == |ch'| == MAX_HEIGHT && PrevOn(cmp, sh, ch, prev, k, from, end)
    requires forall l :: from <= l < end ==> ch'[l] == ch[l]
    requires forall n :: HasKey(sh, n) ==> HasKey(sh', n) && Key(sh', n) == Key(sh, n)
    ensures PrevOn(cmp, sh', ch', prev, k, from, end)
  {
    forall l | from <= l < end
      ensures IsPrev(cmp, sh', ch'[l], prev[l], k)
    {
      var j :| PrevAt(cmp, sh, ch[l], prev[l], k, j);
      assert PrevAt(cmp, sh', ch'[l], prev[l], k, j);
    }
  }

  /** Where the search turns down it has found the predecessor at that level. */
  lemma SearchTurns<K(!new)>(cmp: (K, K) -> int, sh: Shared<K>, ch: seq<seq<nat>>, w: Writer<K>)
    requires TotalPreorder(cmp) && Levels(cmp, sh, ch) && w.Search? && WriterInv(cmp, sh, ch, w)
    ensures Load(sh, w.x, w.level).Some?
    ensures var next := Load(sh, w.x, w.level).value;
            if MovesRight(cmp, sh, AtLeast(w.key), next) then next.value in ch[w.level] && next.value != 0
            else IsPrev(cmp, sh, ch[w.level], w.x, w.key)
    ensures var next := Load(sh, w.x, w.level).value;
            next.Some? ==> HasKey(sh, next.value) && cmp(w.key, Key(sh, next.value)) != 0
  {
    var c := ch[w.level];
    var j := StandsOn(cmp, sh, ch, w.level, w.x);
    if j + 1 < |c| {
      assert c[j + 1] in c;
      assert w.level > 0 ==> Within(ch[w.level], ch[0]);
      assert cmp(Key(sh, c[j + 1]), w.key) != 0;
    }
    if !MovesRight(cmp, sh, AtLeast(w.key), Load(sh, w.x, w.level).value) {
      assert PrevAt(cmp, sh, c, w.x, w.key, j);
    }
  }

  lemma SearchKeepsInv<K(!new)>(cmp: (K, K) -> int, sh: Shared<K>, ch: seq<seq<nat>>, w: Writer<K>)
    requires TotalPreorder(cmp) && Levels(cmp, sh, ch) && w.Search? && WriterInv(cmp, sh, ch, w)
    ensures WriterStepOf(cmp, sh, w, 1).0 == sh
    ensures WriterInv(cmp, sh, ch, WriterStepOf(cmp, sh, w, 1).1)
  {
    hide TotalPreorder, Chain, Load, IsPrev;
    SearchTurns(cmp, sh, ch, w);
    if w.level > 0 {
      assert Within(ch[w.level], ch[w.level - 1]);
    }
  }

  lemma ChooseKeepsInv<K>(cmp: (K, K) -> int, sh: Shared<K>, ch: seq<seq<nat>>, w: Writer<K>, height: nat)
    requires Levels(cmp, sh, ch) && w.ChooseHeight? && WriterInv(cmp, sh, ch, w) && 1 <= height <= MAX_HEIGHT
    ensures var (sh', w') := WriterStepOf(cmp, sh, w, height);
            Levels(cmp, sh', ch) && Grows(sh, ch, sh', ch) && WriterInv(cmp, sh', ch, w')
  {
    var (sh', w') := WriterStepOf(cmp, sh, w, height);
    LevelsKept(cmp, sh, sh', ch);
    PrevOnKept(cmp, sh, sh', ch, ch, w.prev, w.key, 0, sh.maxHeight);
    forall l | 0 <= l < height
      ensures l in w'.prev && IsPrev(cmp, sh', ch[l], w'.prev[l], w.key)
    {
      if l >= sh.maxHeight {
        assert PrevAt(cmp, sh', ch[l], 0, w.key, 0);
      }
    }
  }

  lemma AllocateKeepsInv<K>(cmp: (K, K) -> int, sh: Shared<K>, ch: seq<seq<nat>>, w: Writer<K>)
    requires Levels(cmp, sh, ch) && w.Allocate? && WriterInv(cmp, sh, ch, w)
    ensures var (sh', w') := WriterStepOf(cmp, sh, w, 1);
            Levels(cmp, sh', ch) && Grows(sh, ch, sh', ch) && WriterInv(cmp, sh', ch, w')
  {
    var (sh', w') := WriterStepOf(cmp, sh, w, 1);
    forall l | 0 <= l < MAX_HEIGHT
      ensures forall n :: n in ch[l] ==> n < |sh.nodes|
    {
      ChainNodes(cmp, sh, ch[l], l);
    }
    LevelsKept(cmp, sh, sh', ch);
    PrevOnKept(cmp, sh, sh', ch, ch, w.prev, w.key, 0, w.height);
  }

  /** Line 121: the new node's pointer is written while no reader can be at that level of it. */
  lemma InitKeepsInv<K>(cmp: (K, K) -> int, sh: Shared<K>, ch: seq<seq<nat>>, w: Writer<K>)
    requires Levels(cmp, sh, ch) && w.InitSlot? && WriterInv(cmp, sh, ch, w)
    ensures var (sh', w') := WriterStepOf(cmp, sh, w, 1);
            Levels(cmp, sh', ch) && Grows(sh, ch, sh', ch) && WriterInv(cmp, sh', ch, w')
  {
    var i, p := w.i, w.prev[w.i];
    var j :| PrevAt(cmp, sh, ch[i], p, w.key, j);
    ChainNodes(cmp, sh, ch[i], i);
    var (sh', w') := WriterStepOf(cmp, sh, w, 1);
    assert sh' == Store(sh, w.x, i, Load(sh, p, i).value);
    LevelsKept(cmp, sh, sh', ch);
    PrevOnKept(cmp, sh, sh', ch, ch, w.prev, w.key, i, w.height);
    assert Load(sh', p, i) == Load(sh, p, i) && Load(sh', w.x, i) == Load(sh, p, i);
  }

  function Spliced(c: seq<nat>, j: nat, x: nat): seq<nat>
    requires j < |c|
  {
    c[..j + 1] + [x] + c[j + 1..]
  }

  lemma SplicedAt(c: seq<nat>, j: nat, x: nat)
    requires j < |c|
    ensures |Spliced(c, j, x)| == |c| + 1 && Spliced(c, j, x)[j + 1] == x
    ensures forall i :: 0 <= i <= j ==> Spliced(c, j, x)[i] == c[i]
    ensures forall i :: j + 1 < i <= |c| ==> Spliced(c, j, x)[i] == c[i - 1]
    ensures forall n :: n in Spliced(c, j, x) <==> n in c || n == x
  {
    assert c == c[..j + 1] + c[j + 1..];
  }

  /** Line 122: redirecting the predecessor's pointer puts the new node on the level. */
  lemma LinksGain<K>(cmp: (K, K) -> int, sh: Shared<K>, c: seq<nat>, l: nat, x: nat, j: nat)
    requires Chain(cmp, sh, c, l) && x !in c && j < |c|
    requires Load(sh, x, l) == Load(sh, c[j], l)
    requires forall i, m :: 0 <= i < m < |c| ==> c[i] != c[m]
    ensures var c' := Spliced(c, j, x);
            forall i :: 0 <= i < |c'| ==> LinkAt(Store(sh, c[j], l, Some(x)), c', l, i)
  {
    hide Spliced;
    SplicedAt(c, j, x);
    var sh', c' := Store(sh, c[j], l, Some(x)), Spliced(c, j, x);
    ChainLoad(cmp, sh, c, l, j);
    forall i | 0 <= i < |c'|
      ensures LinkAt(sh', c', l, i)
    {
      if i < j {
        ChainLoad(cmp, sh, c, l, i);
      } else if i > j + 1 {
        ChainLoad(cmp, sh, c, l, i - 1);
      }
    }
  }

  lemma OrderGains<K(!new)>(cmp: (K, K) -> int, sh: Shared<K>, c: seq<nat>, l: nat, x: nat, j: nat)
    requires TotalPreorder(cmp) && Chain(cmp, sh, c, l) && HasKey(sh, x) && j < |c|
    requires PrevAt(cmp, sh, c, c[j], Key(sh, x), j)
    ensures var c' := Spliced(c, j, x);
            && (forall i :: 1 <= i < |c'| ==> HasKey(sh, c'[i]))
            && (forall i, m :: 1 <= i < m < |c'| ==> cmp(Key(sh, c'[i]), Key(sh, c'[m])) < 0)
  {
    hide TotalPreorder, LinkAt, Spliced, PrevAt;
    SplicedAt(c, j, x);
    forall i | 1 <= i < |c|
      ensures if i <= j then cmp(Key(sh, c[i]), Key(sh, x)) < 0 else cmp(Key(sh, x), Key(sh, c[i])) < 0
    {
      OnSide(cmp, sh, c, l, x, j, i);
    }
  }

  lemma OnSide<K(!new)>(cmp: (K, K) -> int, sh: Shared<K>, c: seq<nat>, l: nat, x: nat, j: nat, i: nat)
    requires TotalPreorder(cmp) && Chain(cmp, sh, c, l) && HasKey(sh, x) && j < |c| && 1 <= i < |c|
    requires PrevAt(cmp, sh, c, c[j], Key(sh, x), j)
    ensures if i <= j then cmp(Key(sh, c[i]), Key(sh, x)) < 0 else cmp(Key(sh, x), Key(sh, c[i])) < 0
  {
    hide TotalPreorder, LinkAt;
    if i < j {
      LtLe(cmp, Key(sh, c[i]), Key(sh, c[j]), Key(sh, x));
    } else if i > j + 1 {
      LtLe(cmp, Key(sh, x), Key(sh, c[j + 1]), Key(sh, c[i]));
    }
  }

  lemma ChainGains<K(!new)>(cmp: (K, K) -> int, sh: Shared<K>, c: seq<nat>, l: nat, x: nat, p: nat, j: nat)
    requires TotalPreorder(cmp) && Chain(cmp, sh, c, l) && HasKey(sh, x) && x !in c
    requires PrevAt(cmp, sh, c, p, Key(sh, x), j) && |sh.nodes| > 0 && sh.nodes[0].key.None?
    requires Load(sh, x, l) == Load(sh, p, l)
    ensures Chain(cmp, Store(sh, p, l, Some(x)), Spliced(c, j, x), l)
  {
    hide TotalPreorder, LinkAt, Spliced;
    PrevAtInRange(cmp, sh, c, p, Key(sh, x), j);
    ChainDistinct(cmp, sh, c, l);
    LinksGain(cmp, sh, c, l, x, j);
    OrderGains(cmp, sh, c, l, x, j);
    SplicedAt(c, j, x);
    hide PrevAt, Load;
  }

  lemma ChainDistinct<K(!new)>(cmp: (K, K) -> int, sh: Shared<K>, c: seq<nat>, l: nat)
    requires TotalPreorder(cmp) && Chain(cmp, sh, c, l) && |sh.nodes| > 0 && sh.nodes[0].key.None?
    ensures forall i, j :: 0 <= i < j < |c| ==> c[i] != c[j]
  {
    forall i, j | 0 <= i < j < |c|
      ensures c[i] != c[j]
    {
      if i > 0 { ChainOrder(cmp, sh, c, l, i, j); }
    }
  }

  /** Every level after the store: the one stored to has gained the node. */
  lemma LevelsGain<K(!new)>(cmp: (K, K) -> int, sh: Shared<K>, ch: seq<seq<nat>>, x: nat, p: nat, i: nat, j: nat)
    requires TotalPreorder(cmp) && Levels(cmp, sh, ch) && i < sh.maxHeight
    requires HasKey(sh, x) && PrevAt(cmp, sh, ch[i], p, Key(sh, x), j) && Load(sh, x, i) == Load(sh, p, i)
    requires forall l :: 0 <= l < MAX_HEIGHT ==> (x in ch[l] <==> l < i)
    ensures j < |ch[i]|
    ensures var ch' := ch[i := Spliced(ch[i], j, x)];
            Levels(cmp, Store(sh, p, i, Some(x)), ch') && Grows(sh, ch, Store(sh, p, i, Some(x)), ch')
  {
    hide TotalPreorder, Chain, PrevAt, Load, Spliced;
    PrevAtInRange(cmp, sh, ch[i], p, Key(sh, x), j);
    var sh', ch' := Store(sh, p, i, Some(x)), ch[i := Spliced(ch[i], j, x)];
    ChainGains(cmp, sh, ch[i], i, x, p, j);
    SplicedAt(ch[i], j, x);
    forall l | 0 <= l < MAX_HEIGHT
      ensures Chain(cmp, sh', ch'[l], l)
    {
      if l != i {
        ChainNodes(cmp, sh, ch[l], l);
        StoreElsewhere(sh, p, i, Some(x), l);
        ChainKept(cmp, sh, sh', ch[l], l);
      }
    }
    forall l, m | 0 <= l < m < MAX_HEIGHT
      ensures Within(ch'[m], ch'[l])
    {
      assert Within(ch[m], ch[l]);
    }
  }

  lemma PrevAtInRange<K>(cmp: (K, K) -> int, sh: Shared<K>, c: seq<nat>, p: nat, k: K, j: nat)
    requires PrevAt(cmp, sh, c, p, k, j)
    ensures j < |c| && c[j] == p
  {
  }

  lemma StoreElsewhere<K>(sh: Shared<K>, n: nat, i: nat, p: Option<nat>, l: nat)
    requires l != i
    ensures forall m :: Load(Store(sh, n, i, p), m, l) == Load(sh, m, l)
  {
  }

  lemma PublishKeepsInv<K(!new)>(cmp: (K, K) -> int, sh: Shared<K>, ch: seq<seq<nat>>, w: Writer<K>)
      returns (ch': seq<seq<nat>>)
    requires TotalPreorder(cmp) && Levels(cmp, sh, ch) && w.Publish? && WriterInv(cmp, sh, ch, w)
    ensures var (sh', w') := WriterStepOf(cmp, sh, w, 1);
            Levels(cmp, sh', ch') && Grows(sh, ch, sh', ch') && WriterInv(cmp, sh', ch', w')
    ensures forall n :: n in ch'[0] <==> n in ch[0] || (w.i == 0 && n == w.x)
    ensures exists j: nat ::
              PrevAt(cmp, sh, ch[w.i], w.prev[w.i], w.key, j) && ch' == ch[w.i := Spliced(ch[w.i], j, w.x)]
    ensures forall l :: 0 <= l < MAX_HEIGHT ==> forall n :: n in ch'[l] <==> n in ch[l] || (l == w.i && n == w.x)
  {
    hide TotalPreorder, Levels, Spliced, Load;
    LevelsLength(cmp, sh, ch);
    var i, p, x := w.i, w.prev[w.i], w.x;
    var j :| PrevAt(cmp, sh, ch[i], p, w.key, j);
    hide PrevAt, IsPrev;
    PrevAtInRange(cmp, sh, ch[i], p, w.key, j);
    ch' := ch[i := Spliced(ch[i], j, x)];
    LevelsGain(cmp, sh, ch, x, p, i, j);
    SplicedAt(ch[i], j, x);
    var (sh', w') := WriterStepOf(cmp, sh, w, 1);
    PrevOnKept(cmp, sh, sh', ch, ch', w.prev, w.key, i + 1, w.height);
  }

  lemma WriterKeepsInv<K(!new)>(cmp: (K, K) -> int, sh: Shared<K>, ch: seq<seq<nat>>, w: Writer<K>, height: nat)
      returns (ch': seq<seq<nat>>)
    requires TotalPreorder(cmp) && Levels(cmp, sh, ch) && WriterInv(cmp, sh, ch, w)
    requires !w.Idle? && 1 <= height <= MAX_HEIGHT
    ensures var (sh', w') := WriterStepOf(cmp, sh, w, height);
            Levels(cmp, sh', ch') && Grows(sh, ch, sh', ch') && WriterInv(cmp, sh', ch', w')
    ensures forall n :: n in ch'[0] <==> n in ch[0] || (w.Publish? && w.i == 0 && n == w.x)
    ensures w.Publish? ==> w.i < MAX_HEIGHT && w.x in ch'[w.i]
  {
    hide TotalPreorder, Levels, PrevOn, Load;
    ch' := ch;
    match w {
      case Search(_, _, _, _) =>
        SearchKeepsInv(cmp, sh, ch, w);
        LevelsKept(cmp, sh, sh, ch);
      case ChooseHeight(_, _) => ChooseKeepsInv(cmp, sh, ch, w, height);
      case Allocate(_, _, _) => AllocateKeepsInv(cmp, sh, ch, w);
      case InitSlot(_, _, _, _, _) => InitKeepsInv(cmp, sh, ch, w);
      case Publish(_, _, _, _, _) => ch' := PublishKeepsInv(cmp, sh, ch, w);
    }
  }

  /** Publishing takes one level off what is still to be linked; allocation adds a node all of
      whose levels are still to be linked. */
  lemma CompleteKept<K(!new)>(cmp: (K, K) -> int, sh: Shared<K>, ch: seq<seq<nat>>, w: Writer<K>, height: nat,
                              ch': seq<seq<nat>>)
    requires |ch| == MAX_HEIGHT && WriterInv(cmp, sh, ch, w) && Complete(sh, ch, w) && !w.Idle?
    requires sh.maxHeight <= MAX_HEIGHT
    requires var (sh', w') := WriterStepOf(cmp, sh, w, height); Grows(sh, ch, sh', ch') && !w'.WriterFault?
    requires w.Publish? ==> w.i < MAX_HEIGHT && w.x in ch'[w.i]
    ensures var (sh', w') := WriterStepOf(cmp, sh, w, height); Complete(sh', ch', w')
  {
    hide Load, PrevOn, HeadAsPrev, TotalPreorder;
    var (sh', w') := WriterStepOf(cmp, sh, w, height);
    forall l, n | 0 <= l < MAX_HEIGHT && 0 <= n < |sh'.nodes| && l < sh'.nodes[n].height
      ensures n in ch'[l] || ToLink(w', n, l)
    {
      assert Within(ch[l], ch'[l]);
      if n < |sh.nodes| {
        assert n in ch[l] || ToLink(w, n, l);
      }
    }
  }

  lemma BeginInsertInv<K(!new)>(cmp: (K, K) -> int, s: State<K>, ch: seq<seq<nat>>, key: K)
    requires Levels(cmp, s.sh, ch) && Enabled(cmp, s, BeginInsert(key))
    ensures WriterInv(cmp, s.sh, ch, Step(cmp, s, BeginInsert(key)).writer)
  {
    PresentIsBottom(cmp, s.sh, ch[0]);
    var level := s.sh.maxHeight - 1;
    assert Chain(cmp, s.sh, ch[level], level);
    forall n | n in ch[0] && HasKey(s.sh, n)
      ensures cmp(Key(s.sh, n), key) != 0
    {
      assert n in Present(s.sh);
    }
  }

  /** Every step of every thread keeps the invariant. */
  lemma StepKeepsInv<K(!new)>(cmp: (K, K) -> int, s: State<K>, a: Action<K>, ch: seq<seq<nat>>)
      returns (ch': seq<seq<nat>>)
    requires TotalPreorder(cmp) && Inv(cmp, s, ch) && Enabled(cmp, s, a)
    ensures Inv(cmp, Step(cmp, s, a), ch') && Grows(s.sh, ch, Step(cmp, s, a).sh, ch')
    ensures forall n :: n in ch'[0] <==>
              n in ch[0] || (a.WriterStep? && s.writer.Publish? && s.writer.i == 0 && n == s.writer.x)
  {
    hide TotalPreorder, Levels, WriterInv, ReaderInv, Load, WriterStepOf, DescendStep;
    ch' := ch;
    var s' := Step(cmp, s, a);
    LevelsLength(cmp, s.sh, ch);
    match a {
      case BeginInsert(key) => BeginInsertInv(cmp, s, ch, key);
      case WriterStep(height) =>
        ch' := WriterKeepsInv(cmp, s.sh, ch, s.writer, height);
        LevelsLength(cmp, s'.sh, ch');
        NoFault(cmp, s'.sh, ch', s'.writer);
        CompleteKept(cmp, s.sh, ch, s.writer, height, ch');
        forall r | 0 <= r < |s'.readers|
          ensures ReaderInv(cmp, s'.sh, ch', s'.readers[r])
        {
          ReaderInvGrows(cmp, s.sh, ch, s'.sh, ch', s.readers[r]);
        }
      case BeginOp(r, op) => BeginOpInv(cmp, s.sh, ch, op);
      case ReadHeight(r, height) => ReadHeightInv(cmp, s.sh, ch, s.readers[r], height);
      case ReaderStep(r) =>
        if s.readers[r].pc.Descend? {
          DescendKeepsInv(cmp, s.sh, ch, s.readers[r]);
        } else {
          FirstKeepsInv(cmp, s.sh, ch, s.readers[r]);
        }
      case Next(r) => NextKeepsInv(cmp, s.sh, ch, s.readers[r]);
    }
  }

  lemma LevelsLength<K>(cmp: (K, K) -> int, sh: Shared<K>, ch: seq<seq<nat>>)
    requires Levels(cmp, sh, ch)
    ensures |ch| == MAX_HEIGHT && sh.maxHeight <= MAX_HEIGHT && Grows(sh, ch, sh, ch)
  {
  }

  lemma LevelChain<K>(cmp: (K, K) -> int, sh: Shared<K>, ch: seq<seq<nat>>, l: nat)
    requires Levels(cmp, sh, ch) && l < |ch|
    ensures Chain(cmp, sh, ch[l], l)
  {
  }

  lemma NoFault<K>(cmp: (K, K) -> int, sh: Shared<K>, ch: seq<seq<nat>>, w: Writer<K>)
    requires |ch| == MAX_HEIGHT && WriterInv(cmp, sh, ch, w)
    ensures !w.WriterFault?
  {
  }

  /** Any value `max_height_` ever had is a level the head has, so a stale one is safe. */
  lemma ReadHeightInv<K>(cmp: (K, K) -> int, sh: Shared<K>, ch: seq<seq<nat>>, r: Reader<K>, height: nat)
    requires Levels(cmp, sh, ch) && ReaderInv(cmp, sh, ch, r) && r.pc.LoadHeight? && height in sh.stored
    ensures height > 0 && ReaderInv(cmp, sh, ch, r.(pc := Descend(r.pc.goal, 0, height - 1)))
  {
    assert Chain(cmp, sh, ch[height - 1], height - 1);
  }

  lemma InitInv<K(!new)>(cmp: (K, K) -> int, s: State<K>) returns (ch: seq<seq<nat>>)
    requires TotalPreorder(cmp) && Initial(s)
    ensures Inv(cmp, s, ch) && forall l :: 0 <= l < MAX_HEIGHT ==> ch[l] == [0]
  {
    ch := seq(MAX_HEIGHT, _ => [0]);
    forall l | 0 <= l < MAX_HEIGHT
      ensures Chain(cmp, s.sh, ch[l], l)
    {
      assert LinkAt(s.sh, ch[l], l, 0);
    }
    hide TotalPreorder, Chain;
    forall r | 0 <= r < |s.readers|
      ensures ReaderInv(cmp, s.sh, ch, s.readers[r])
    {
    }
  }

  /** The invariant over whole runs. */
  lemma {:induction false} RunKeepsInv<K(!new)>(cmp: (K, K) -> int, s: State<K>, acts: seq<Action<K>>,
                                                ch: seq<seq<nat>>)
      returns (ch': seq<seq<nat>>)
    requires TotalPreorder(cmp) && Inv(cmp, s, ch) && Legal(cmp, s, acts)
    ensures Inv(cmp, Run(cmp, s, acts), ch') && Grows(s.sh, ch, Run(cmp, s, acts).sh, ch')
    decreases |acts|
  {
    hide TotalPreorder, Levels, WriterInv, ReaderInv, Enabled, Step;
    if acts == [] {
      ch' := ch;
      LevelsLength(cmp, s.sh, ch);
    } else {
      var ch1 := StepKeepsInv(cmp, s, acts[0], ch);
      ch' := RunKeepsInv(cmp, Step(cmp, s, acts[0]), acts[1..], ch1);
      GrowsTransitive(s.sh, ch, Step(cmp, s, acts[0]).sh, ch1, Run(cmp, s, acts).sh, ch');
    }
  }

  lemma GrowsTransitive<K>(a: Shared<K>, ca: seq<seq<nat>>, b: Shared<K>, cb: seq<seq<nat>>, c: Shared<K>,
                           cc: seq<seq<nat>>)
    requires Grows(a, ca, b, cb) && Grows(b, cb, c, cc)
    ensures Grows(a, ca, c, cc)
  {
    forall l | 0 <= l < MAX_HEIGHT
      ensures Within(ca[l], cc[l])
    {
      assert Within(ca[l], cb[l]) && Within(cb[l], cc[l]);
    }
  }
}
