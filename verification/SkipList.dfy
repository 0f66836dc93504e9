/**
  The skip list as its single thread of execution sees it: linked nodes changed in place.

  Every object is tied to the shared memory of `ConcurrentSkipList`: node object `nodes[n]`
  is node `n`, and its pointers are the slots of `n`. `Insert` performs the writer's steps of
  that system on the objects: it leaves the memory that a legal run of one insertion leaves.
 */
module SkipLists {
  import opened Wrappers
  import opened Order
  import opened SortedKeys
  import opened ConcurrentSkipList
  import Random

  /** A node; the head is the one without a key. Fresh pointers hold no particular value. */
  class Node<K(!new)> {
    const key: Option<K>
    var nexts: seq<Node?<K>>

    constructor (k: Option<K>, height: nat)
      ensures key == k && |nexts| == height
    {
      key := k;
      nexts := seq(height, _ => null);
    }

    method Next(n: nat) returns (x: Node?<K>)
      requires n < |nexts|
      ensures x == nexts[n]
    {
      x := nexts[n];
    }

    method SetNext(n: nat, x: Node?<K>)
      requires n < |nexts|
      modifies this
      ensures nexts == old(nexts)[n := x]
    {
      nexts := nexts[n := x];
    }
  }

  /** The keys of a chain, in order. */
  ghost function KeysOf<K>(sh: Shared<K>, c: seq<nat>): (ks: seq<K>)
    requires c != [] && forall j :: 1 <= j < |c| ==> HasKey(sh, c[j])
    ensures |ks| == |c| - 1 && forall i :: 0 <= i < |ks| ==> ks[i] == Key(sh, c[i + 1])
  {
    seq(|c| - 1, i requires 0 <= i < |c| - 1 => Key(sh, c[i + 1]))
  }

  /** Where a search for `k` stops on a chain. */
  ghost predicate StopsAt<K>(cmp: (K, K) -> int, sh: Shared<K>, c: seq<nat>, k: K, j: nat) {
    && j < |c|
    && (j > 0 ==> KeyBelow(cmp, sh, c[j], k))
    && (j + 1 < |c| ==> !KeyBelow(cmp, sh, c[j + 1], k))
  }

  lemma ChainKeys<K(!new)>(cmp: (K, K) -> int, sh: Shared<K>, c: seq<nat>, l: nat)
    requires Chain(cmp, sh, c, l)
    ensures c != [] && c[0] == 0 && (forall j :: 1 <= j < |c| ==> HasKey(sh, c[j]))
    ensures Ascending(cmp, KeysOf(sh, c))
  {
  }

  lemma StopIsLowerBound<K(!new)>(cmp: (K, K) -> int, sh: Shared<K>, c: seq<nat>, l: nat, k: K, j: nat)
    requires TotalPreorder(cmp) && Chain(cmp, sh, c, l) && StopsAt(cmp, sh, c, k, j)
    ensures c != [] && forall j :: 1 <= j < |c| ==> HasKey(sh, c[j])
    ensures LowerBound(cmp, KeysOf(sh, c), k) == j
  {
    hide TotalPreorder, LinkAt;
    var ks := KeysOf(sh, c);
    forall m | 0 <= m < j
      ensures cmp(ks[m], k) < 0
    {
      if m + 1 < j { LtLe(cmp, Key(sh, c[m + 1]), Key(sh, c[j]), k); }
    }
    LowerBoundIs(cmp, ks, k, j);
  }

  /** With `k` absent, where the search stops is the predecessor to link behind. */
  lemma StopIsPrev<K(!new)>(cmp: (K, K) -> int, sh: Shared<K>, ch: seq<seq<nat>>, l: nat, k: K, j: nat)
    requires TotalPreorder(cmp) && Levels(cmp, sh, ch) && l < MAX_HEIGHT && StopsAt(cmp, sh, ch[l], k, j)
    requires !Contains(cmp, KeysOf(sh, ch[0]), k)
    ensures IsPrev(cmp, sh, ch[l], ch[l][j], k)
  {
    var c := ch[l];
    if j + 1 < |c| {
      assert Chain(cmp, sh, c, l) && c[j + 1] in c;
      assert c[j + 1] in ch[0] by { assert l > 0 ==> Within(ch[l], ch[0]); }
      var m :| 0 <= m < |ch[0]| && ch[0][m] == c[j + 1];
      hide Levels;
      assert m > 0;
      assert KeysOf(sh, ch[0])[m - 1] == Key(sh, c[j + 1]);
      Flip(cmp, k, Key(sh, c[j + 1]));
    }
    assert PrevAt(cmp, sh, c, c[j], k, j);
  }

  lemma PrevStops<K(!new)>(cmp: (K, K) -> int, sh: Shared<K>, c: seq<nat>, k: K, j: nat)
    requires TotalPreorder(cmp) && j < |c| && PrevAt(cmp, sh, c, c[j], k, j)
    ensures StopsAt(cmp, sh, c, k, j)
  {
    hide TotalPreorder;
    if j + 1 < |c| { Flip(cmp, k, Key(sh, c[j + 1])); }
  }

  /** Linking at the bottom level inserts the key into the abstract sequence. */
  lemma SplicedKeysOf<K(!new)>(cmp: (K, K) -> int, sh: Shared<K>, sh': Shared<K>, c: seq<nat>, k: K, j: nat, x: nat)
    requires TotalPreorder(cmp) && Chain(cmp, sh, c, 0) && j < |c| && PrevAt(cmp, sh, c, c[j], k, j)
    requires HasKey(sh', x) && Key(sh', x) == k
    requires forall i :: 1 <= i < |c| ==> HasKey(sh', c[i]) && Key(sh', c[i]) == Key(sh, c[i])
    ensures forall i :: 1 <= i < |Spliced(c, j, x)| ==> HasKey(sh', Spliced(c, j, x)[i])
    ensures KeysOf(sh', Spliced(c, j, x)) == InsertSorted(cmp, KeysOf(sh, c), k)
  {
    hide TotalPreorder, Spliced, InsertSorted, LowerBound, PrevAt, StopsAt;
    PrevStops(cmp, sh, c, k, j);
    StopIsLowerBound(cmp, sh, c, 0, k, j);
    hide Chain, HasKey, Key;
    SplicedAt(c, j, x);
    InsertSortedAt(cmp, KeysOf(sh, c), k);
  }

  ghost function BottomKeys<K(!new)>(cmp: (K, K) -> int, sh: Shared<K>, ch: seq<seq<nat>>): seq<K>
    requires Levels(cmp, sh, ch)
  {
    assert Chain(cmp, sh, ch[0], 0);
    KeysOf(sh, ch[0])
  }

  lemma EmptyLevels<K(!new)>(cmp: (K, K) -> int) returns (ch: seq<seq<nat>>)
    requires TotalPreorder(cmp)
    ensures Levels(cmp, Init<K>([]).sh, ch) && BottomKeys(cmp, Init<K>([]).sh, ch) == []
  {
    ch := InitInv(cmp, Init<K>([]));
    hide Levels, Complete;
  }

  /** The store to the bottom level inserts the key; the stores above it change no key. */
  lemma BottomGains<K(!new)>(cmp: (K, K) -> int, sh: Shared<K>, ch: seq<seq<nat>>, sh': Shared<K>, ch': seq<seq<nat>>,
                             w: Writer<K>)
    requires TotalPreorder(cmp) && w.Publish? && Levels(cmp, sh, ch) && WriterInv(cmp, sh, ch, w)
    requires Levels(cmp, sh', ch') && Grows(sh, ch, sh', ch')
    requires exists j: nat ::
              PrevAt(cmp, sh, ch[w.i], w.prev[w.i], w.key, j) && ch' == ch[w.i := Spliced(ch[w.i], j, w.x)]
    ensures BottomKeys(cmp, sh', ch') ==
            if w.i == 0 then InsertSorted(cmp, BottomKeys(cmp, sh, ch), w.key) else BottomKeys(cmp, sh, ch)
  {
    hide TotalPreorder, LinkAt, Spliced, InsertSorted, LowerBound;
    var j: nat :| PrevAt(cmp, sh, ch[w.i], w.prev[w.i], w.key, j) && ch' == ch[w.i := Spliced(ch[w.i], j, w.x)];
    PrevAtInRange(cmp, sh, ch[w.i], w.prev[w.i], w.key, j);
    hide PrevAt;
    var c := ch[0];
    KeysKept(cmp, sh, c, sh');
    assert HasKey(sh', w.x) && Key(sh', w.x) == w.key;
    if w.i == 0 {
      SplicedKeysOf(cmp, sh, sh', c, w.key, j, w.x);
    }
  }

  lemma KeysKept<K(!new)>(cmp: (K, K) -> int, sh: Shared<K>, c: seq<nat>, sh': Shared<K>)
    requires Chain(cmp, sh, c, 0) && |sh.nodes| <= |sh'.nodes|
    requires forall n :: 0 <= n < |sh.nodes| ==> sh'.nodes[n] == sh.nodes[n]
    ensures forall i :: 1 <= i < |c| ==> HasKey(sh, c[i]) && HasKey(sh', c[i]) && Key(sh', c[i]) == Key(sh, c[i])
    ensures KeysOf(sh', c) == KeysOf(sh, c)
  {
    hide LinkAt;
    assert forall i :: 1 <= i < |c| ==> HasKey(sh', c[i]) && Key(sh', c[i]) == Key(sh, c[i]);
  }

  ghost predicate GainedAt(c: seq<nat>, c': seq<nat>, gains: bool, x: nat) {
    forall n :: n in c' <==> n in c || (gains && n == x)
  }

  /** Levels `lo` to `hi` have gained node `x`, and no level has changed otherwise. */
  ghost predicate Gained(ch: seq<seq<nat>>, ch': seq<seq<nat>>, lo: nat, hi: nat, x: nat) {
    |ch| == |ch'| && forall l :: 0 <= l < |ch| ==> GainedAt(ch[l], ch'[l], lo <= l < hi, x)
  }

  lemma GainedMore(a: seq<seq<nat>>, b: seq<seq<nat>>, c: seq<seq<nat>>, i: nat, x: nat)
    requires Gained(a, b, 0, i, x) && Gained(b, c, i, i + 1, x)
    ensures Gained(a, c, 0, i + 1, x)
  {
    forall l | 0 <= l < |a|
      ensures GainedAt(a[l], c[l], 0 <= l < i + 1, x)
    {
      assert GainedAt(a[l], b[l], 0 <= l < i, x) && GainedAt(b[l], c[l], i <= l < i + 1, x);
    }
  }

  /** The height drawn from a seed: as long as draws are divisible by four another level is
      added, up to twelve; and the seed left behind, after one draw a level but at most eleven. */
  ghost predicate Draws(before: nat, height: nat, after: nat) {
    && 1 <= height <= 12
    && (forall i :: 1 <= i < height ==> Random.SeedAfter(before, i) % 4 == 0)
    && (height < 12 ==> Random.SeedAfter(before, height) % 4 != 0)
    && after == Random.SeedAfter(before, if height < 12 then height else 11)
  }

  /** The writer after both stores of a level. */
  ghost function AfterLevel<K>(w: Writer<K>): Writer<K>
    requires w.InitSlot? || w.Publish?
  {
    if w.i + 1 < w.height then InitSlot(w.x, w.key, w.prev, w.height, w.i + 1) else Idle
  }

  /** The writer about to link level `i`, or done. */
  ghost function AtLevel<K>(w: Writer<K>, i: nat): Writer<K>
    requires w.InitSlot?
  {
    if i < w.height then InitSlot(w.x, w.key, w.prev, w.height, i) else Idle
  }

  lemma InitIs<K>(cmp: (K, K) -> int, sh: Shared<K>, w: Writer<K>)
    requires w.InitSlot? && w.i in w.prev && Load(sh, w.prev[w.i], w.i).Some?
    ensures WriterStepOf(cmp, sh, w, 1) ==
            (Store(sh, w.x, w.i, Load(sh, w.prev[w.i], w.i).value), Publish(w.x, w.key, w.prev, w.height, w.i))
  {
  }

  lemma PublishIs<K>(cmp: (K, K) -> int, sh: Shared<K>, w: Writer<K>)
    requires w.Publish? && w.i in w.prev
    ensures WriterStepOf(cmp, sh, w, 1) == (Store(sh, w.prev[w.i], w.i, Some(w.x)), AfterLevel(w))
  {
  }

  lemma SameKeys<K(!new)>(cmp: (K, K) -> int, sh: Shared<K>, sh': Shared<K>, ch: seq<seq<nat>>)
    requires Levels(cmp, sh, ch) && Levels(cmp, sh', ch) && Grows(sh, ch, sh', ch)
    ensures BottomKeys(cmp, sh', ch) == BottomKeys(cmp, sh, ch)
  {
    assert Chain(cmp, sh, ch[0], 0) && Chain(cmp, sh', ch[0], 0);
  }

  // ----- an insertion as a run of the writer

  /** `n` steps of the writer alone, with `height` the height it draws, lead from `sh` and `w`
      to `sh'` and `w'`. */
  ghost predicate Takes<K>(cmp: (K, K) -> int, sh: Shared<K>, w: Writer<K>, height: nat, n: nat, sh': Shared<K>,
                           w': Writer<K>)
    decreases n
  {
    if n == 0 then sh' == sh && w' == w
    else
      !w.Idle? &&
      var (sh1, w1) := WriterStepOf(cmp, sh, w, height);
      Takes(cmp, sh1, w1, height, n - 1, sh', w')
  }

  ghost predicate Reaches<K>(cmp: (K, K) -> int, sh: Shared<K>, w: Writer<K>, height: nat, sh': Shared<K>,
                             w': Writer<K>) {
    exists n: nat :: Takes(cmp, sh, w, height, n, sh', w')
  }

  lemma {:induction false} TakesMore<K>(cmp: (K, K) -> int, a: Shared<K>, wa: Writer<K>, height: nat, n: nat,
                                        b: Shared<K>,
                                        wb: Writer<K>, m: nat, c: Shared<K>, wc: Writer<K>)
    requires Takes(cmp, a, wa, height, n, b, wb) && Takes(cmp, b, wb, height, m, c, wc)
    ensures Takes(cmp, a, wa, height, n + m, c, wc)
    decreases n
  {
    if n > 0 {
      hide WriterStepOf;
      var (a1, w1) := WriterStepOf(cmp, a, wa, height);
      TakesMore(cmp, a1, w1, height, n - 1, b, wb, m, c, wc);
    }
  }

  lemma ReachesMore<K>(cmp: (K, K) -> int, a: Shared<K>, wa: Writer<K>, height: nat, b: Shared<K>, wb: Writer<K>,
                       c: Shared<K>, wc: Writer<K>)
    requires Reaches(cmp, a, wa, height, b, wb) && Reaches(cmp, b, wb, height, c, wc)
    ensures Reaches(cmp, a, wa, height, c, wc)
  {
    hide Takes;
    var n: nat :| Takes(cmp, a, wa, height, n, b, wb);
    var m: nat :| Takes(cmp, b, wb, height, m, c, wc);
    TakesMore(cmp, a, wa, height, n, b, wb, m, c, wc);
  }

  lemma ReachesNow<K>(cmp: (K, K) -> int, sh: Shared<K>, w: Writer<K>, height: nat)
    ensures Reaches(cmp, sh, w, height, sh, w)
  {
    assert Takes(cmp, sh, w, height, 0, sh, w);
  }

  /** Only the choice of the height depends on the height. */
  lemma ReachesNext<K>(cmp: (K, K) -> int, sh: Shared<K>, w: Writer<K>, height: nat, h: nat)
    requires !w.Idle? && (w.ChooseHeight? ==> h == height)
    ensures Reaches(cmp, sh, w, height, WriterStepOf(cmp, sh, w, h).0, WriterStepOf(cmp, sh, w, h).1)
  {
    hide HeadAsPrev, Load;
    var (sh1, w1) := WriterStepOf(cmp, sh, w, height);
    assert (sh1, w1) == WriterStepOf(cmp, sh, w, h);
    hide WriterStepOf;
    assert Takes(cmp, sh1, w1, height, 0, sh1, w1);
    assert Takes(cmp, sh, w, height, 1, sh1, w1);
  }

  ghost predicate WriterSteps<K>(acts: seq<Action<K>>, height: nat) {
    forall i :: 0 <= i < |acts| ==> acts[i] == WriterStep(height)
  }

  /** Inserting `key` at `height` takes the memory from `sh` to `sh'` as a legal run: one
      `BeginInsert`, then steps of the writer until it is idle again. */
  ghost predicate InsertRuns<K(!new)>(cmp: (K, K) -> int, sh: Shared<K>, key: K, height: nat, sh': Shared<K>) {
    exists acts :: WriterSteps(acts, height)
        && RunsTo(cmp, State(sh, Idle, []), [BeginInsert(key)] + acts, State(sh', Idle, []))
  }

  lemma {:induction false} TakesRuns<K(!new)>(cmp: (K, K) -> int, sh: Shared<K>, w: Writer<K>, height: nat, n: nat,
                                              sh': Shared<K>, w': Writer<K>)
      returns (acts: seq<Action<K>>)
    requires Takes(cmp, sh, w, height, n, sh', w') && 1 <= height <= MAX_HEIGHT
    ensures WriterSteps(acts, height) && RunsTo(cmp, State(sh, w, []), acts, State(sh', w', []))
    decreases n
  {
    hide WriterStepOf;
    if n == 0 {
      acts := [];
    } else {
      var (sh1, w1) := WriterStepOf(cmp, sh, w, height);
      var rest := TakesRuns(cmp, sh1, w1, height, n - 1, sh', w');
      acts := [WriterStep(height)] + rest;
      RunsFirst(cmp, State(sh, w, []), WriterStep(height), rest, State(sh', w', []));
    }
  }

  /** The writer at the start of its search. */
  ghost function Starting<K>(sh: Shared<K>, key: K): Writer<K> {
    Search(key, 0, if sh.maxHeight == 0 then 0 else sh.maxHeight - 1, map[])
  }

  lemma ReachesRuns<K(!new)>(cmp: (K, K) -> int, sh: Shared<K>, key: K, height: nat, sh': Shared<K>)
    requires Enabled(cmp, State(sh, Idle, []), BeginInsert(key)) && 1 <= height <= MAX_HEIGHT
    requires Reaches(cmp, sh, Starting(sh, key), height, sh', Idle)
    ensures InsertRuns(cmp, sh, key, height, sh')
  {
    hide Takes, WriterStepOf;
    var n: nat :| Takes(cmp, sh, Starting(sh, key), height, n, sh', Idle);
    var acts := TakesRuns(cmp, sh, Starting(sh, key), height, n, sh', Idle);
    var s := State(sh, Idle, []);
    assert Step(cmp, s, BeginInsert(key)) == State(sh, Starting(sh, key), []);
    hide Enabled, Step, RunsTo;
    RunsFirst(cmp, s, BeginInsert(key), acts, State(sh', Idle, []));
  }

  /** An absent key may be inserted. */
  lemma MayInsert<K(!new)>(cmp: (K, K) -> int, sh: Shared<K>, ch: seq<seq<nat>>, key: K)
    requires TotalPreorder(cmp) && Levels(cmp, sh, ch) && !Contains(cmp, BottomKeys(cmp, sh, ch), key)
    ensures Enabled(cmp, State(sh, Idle, []), BeginInsert(key))
    ensures Starting(sh, key).level == sh.maxHeight - 1 && WriterInv(cmp, sh, ch, Starting(sh, key))
  {
    hide TotalPreorder, Present, OnBottom, LinkAt;
    assert Chain(cmp, sh, ch[0], 0);
    PresentIsBottom(cmp, sh, ch[0]);
    var s := State(sh, Idle, []);
    forall n | n in Present(sh)
      ensures HasKey(sh, n) && cmp(Key(sh, n), key) != 0
    {
      var j: nat :| j < |ch[0]| && ch[0][j] == n;
      assert BottomKeys(cmp, sh, ch)[j - 1] == Key(sh, n);
      Flip(cmp, Key(sh, n), key);
    }
    BeginInsertInv(cmp, s, ch, key);
  }

  /** The search of `insert` runs to its end, and fills the table from its level down. */
  lemma {:induction false} SearchReaches<K(!new)>(cmp: (K, K) -> int, sh: Shared<K>, ch: seq<seq<nat>>, w: Writer<K>,
                                                  height: nat, j: nat)
      returns (w': Writer<K>)
    requires TotalPreorder(cmp) && Levels(cmp, sh, ch) && w.Search? && WriterInv(cmp, sh, ch, w)
    requires w.level < |ch| && j < |ch[w.level]| && ch[w.level][j] == w.x
    ensures w'.ChooseHeight? && w'.key == w.key && WriterInv(cmp, sh, ch, w')
    ensures Reaches(cmp, sh, w, height, sh, w')
    ensures forall l: nat :: l in w'.prev <==> l in w.prev || l <= w.level
    decreases w.level, |ch[w.level]| - j
  {
    hide TotalPreorder, Levels, WriterInv, Reaches;
    var w1, j1 := SearchSteps(cmp, sh, ch, w, j);
    ReachesNext(cmp, sh, w, height, 1);
    if w1.Search? {
      w' := SearchReaches(cmp, sh, ch, w1, height, j1);
    } else {
      w' := w1;
      ReachesNow(cmp, sh, w', height);
    }
    ReachesMore(cmp, sh, w, height, sh, w1, sh, w');
  }

  lemma SearchSteps<K(!new)>(cmp: (K, K) -> int, sh: Shared<K>, ch: seq<seq<nat>>, w: Writer<K>, j: nat)
      returns (w': Writer<K>, j': nat)
    requires TotalPreorder(cmp) && Levels(cmp, sh, ch) && w.Search? && WriterInv(cmp, sh, ch, w)
    requires w.level < |ch| && j < |ch[w.level]| && ch[w.level][j] == w.x
    ensures WriterStepOf(cmp, sh, w, 1) == (sh, w') && WriterInv(cmp, sh, ch, w')
    ensures w'.Search? || w'.ChooseHeight?
    ensures w'.key == w.key
    ensures w'.ChooseHeight? ==> w.level == 0 && forall l: nat :: l in w'.prev <==> l in w.prev || l == 0
    ensures w'.Search? ==> w'.level < |ch| && j' < |ch[w'.level]| && ch[w'.level][j'] == w'.x
    ensures w'.Search? ==>
              if w'.level == w.level then w'.prev == w.prev && j' == j + 1
              else w'.level + 1 == w.level && forall l: nat :: l in w'.prev <==> l in w.prev || l == w.level
  {
    hide TotalPreorder, Levels, WriterInv, Chain;
    LevelsLength(cmp, sh, ch);
    SearchKeepsInv(cmp, sh, ch, w);
    w' := WriterStepOf(cmp, sh, w, 1).1;
    NoFault(cmp, sh, ch, w');
    LevelChain(cmp, sh, ch, w.level);
    ChainLoad(cmp, sh, ch[w.level], w.level, j);
    j' := j + 1;
    if w'.Search? && w'.level < w.level {
      SearchPlace(cmp, sh, ch, w');
      j' :| 0 <= j' < |ch[w'.level]| && ch[w'.level][j'] == w'.x;
    }
  }

  lemma SearchPlace<K>(cmp: (K, K) -> int, sh: Shared<K>, ch: seq<seq<nat>>, w: Writer<K>)
    requires |ch| == MAX_HEIGHT && WriterInv(cmp, sh, ch, w) && w.Search?
    ensures w.level < |ch| && w.x in ch[w.level]
  {
  }

  /** There is one predecessor on a level. */
  lemma OnePrev<K(!new)>(cmp: (K, K) -> int, sh: Shared<K>, c: seq<nat>, l: nat, p: nat, q: nat, k: K)
    requires TotalPreorder(cmp) && Chain(cmp, sh, c, l) && IsPrev(cmp, sh, c, p, k) && IsPrev(cmp, sh, c, q, k)
    ensures p == q
  {
    var i :| PrevAt(cmp, sh, c, p, k, i);
    var j :| PrevAt(cmp, sh, c, q, k, j);
    hide TotalPreorder, Chain;
    PrevStops(cmp, sh, c, k, i);
    PrevStops(cmp, sh, c, k, j);
    StopIsLowerBound(cmp, sh, c, l, k, i);
    StopIsLowerBound(cmp, sh, c, l, k, j);
  }

  /** The writer's search ends with the one table there is. */
  lemma SearchEnds<K(!new)>(cmp: (K, K) -> int, sh: Shared<K>, ch: seq<seq<nat>>, key: K, height: nat,
                            prev: map<nat, nat>)
    requires TotalPreorder(cmp) && Levels(cmp, sh, ch) && !Contains(cmp, BottomKeys(cmp, sh, ch), key)
    requires WriterInv(cmp, sh, ch, ChooseHeight(key, prev)) && forall l: nat :: l in prev <==> l < sh.maxHeight
    ensures Reaches(cmp, sh, Starting(sh, key), height, sh, ChooseHeight(key, prev))
  {
    hide TotalPreorder, Reaches, BottomKeys, Levels, Chain, WriterInv, IsPrev;
    MayInsert(cmp, sh, ch, key);
    LevelsLength(cmp, sh, ch);
    LevelChain(cmp, sh, ch, sh.maxHeight - 1);
    ChainStart(cmp, sh, ch[sh.maxHeight - 1], sh.maxHeight - 1);
    var w := SearchReaches(cmp, sh, ch, Starting(sh, key), height, 0);
    OneTable(cmp, sh, ch, key, w.prev, prev);
  }

  lemma ChainStart<K>(cmp: (K, K) -> int, sh: Shared<K>, c: seq<nat>, l: nat)
    requires Chain(cmp, sh, c, l)
    ensures 0 < |c| && c[0] == 0
  {
  }

  lemma OneTable<K(!new)>(cmp: (K, K) -> int, sh: Shared<K>, ch: seq<seq<nat>>, key: K, p: map<nat, nat>,
                          q: map<nat, nat>)
    requires TotalPreorder(cmp) && Levels(cmp, sh, ch)
    requires WriterInv(cmp, sh, ch, ChooseHeight(key, p)) && WriterInv(cmp, sh, ch, ChooseHeight(key, q))
    requires forall l: nat :: l in p <==> l < sh.maxHeight
    requires forall l: nat :: l in q <==> l < sh.maxHeight
    ensures p == q
  {
    hide TotalPreorder, Levels, Chain, IsPrev;
    LevelsLength(cmp, sh, ch);
    forall l | 0 <= l < sh.maxHeight
      ensures p[l] == q[l]
    {
      LevelChain(cmp, sh, ch, l);
      OnePrev(cmp, sh, ch[l], l, p[l], q[l], key);
    }
  }

  /** The search and what follows it make up a whole insertion. */
  lemma WholeRun<K(!new)>(cmp: (K, K) -> int, sh: Shared<K>, ch: seq<seq<nat>>, key: K, height: nat,
                          prev: map<nat, nat>,
                          sh': Shared<K>)
    requires TotalPreorder(cmp) && Levels(cmp, sh, ch) && !Contains(cmp, BottomKeys(cmp, sh, ch), key)
    requires WriterInv(cmp, sh, ch, ChooseHeight(key, prev)) && forall l: nat :: l in prev <==> l < sh.maxHeight
    requires 1 <= height <= MAX_HEIGHT && Reaches(cmp, sh, ChooseHeight(key, prev), height, sh', Idle)
    ensures InsertRuns(cmp, sh, key, height, sh')
  {
    hide *;
    MayInsert(cmp, sh, ch, key);
    SearchEnds(cmp, sh, ch, key, height, prev);
    ReachesMore(cmp, sh, Starting(sh, key), height, sh, ChooseHeight(key, prev), sh', Idle);
    ReachesRuns(cmp, sh, key, height, sh');
  }

  /** Choice of the height, allocation and linking, one after the other. */
  lemma AllReaches<K>(cmp: (K, K) -> int, sh: Shared<K>, w: Writer<K>, height: nat, sh1: Shared<K>, w1: Writer<K>,
                      sh2: Shared<K>, w2: Writer<K>, sh': Shared<K>)
    requires w.ChooseHeight? && (sh1, w1) == WriterStepOf(cmp, sh, w, height)
    requires w1.Allocate? && (sh2, w2) == WriterStepOf(cmp, sh1, w1, 1)
    requires Reaches(cmp, sh2, w2, height, sh', Idle)
    ensures Reaches(cmp, sh, w, height, sh', Idle)
  {
    hide Reaches, WriterStepOf;
    ReachesNext(cmp, sh, w, height, height);
    ReachesNext(cmp, sh1, w1, height, 1);
    ReachesMore(cmp, sh1, w1, height, sh2, w2, sh', Idle);
    ReachesMore(cmp, sh, w, height, sh1, w1, sh', Idle);
  }

  /** The two steps of one level. */
  ghost function LinkSteps<K>(cmp: (K, K) -> int, sh: Shared<K>, w: Writer<K>): (Shared<K>, Writer<K>) {
    var (sh1, w1) := WriterStepOf(cmp, sh, w, 1);
    WriterStepOf(cmp, sh1, w1, 1)
  }

  lemma LinkReaches<K>(cmp: (K, K) -> int, sh: Shared<K>, w: Writer<K>, height: nat)
    requires w.InitSlot?
    ensures Reaches(cmp, sh, w, height, LinkSteps(cmp, sh, w).0, LinkSteps(cmp, sh, w).1)
  {
    hide Reaches, Load;
    var (sh1, w1) := WriterStepOf(cmp, sh, w, 1);
    assert w1.Publish? || w1.WriterFault?;
    var (sh2, w2) := LinkSteps(cmp, sh, w);
    ReachesNext(cmp, sh, w, height, 1);
    ReachesNext(cmp, sh1, w1, height, 1);
    ReachesMore(cmp, sh, w, height, sh1, w1, sh2, w2);
  }

  /** What the two steps do to memory, to the levels and to the keys. */
  lemma LinkStepsKeepInv<K(!new)>(cmp: (K, K) -> int, sh: Shared<K>, ch: seq<seq<nat>>, w: Writer<K>)
      returns (sh1: Shared<K>, sh2: Shared<K>, ch': seq<seq<nat>>)
    requires TotalPreorder(cmp) && Levels(cmp, sh, ch) && w.InitSlot? && WriterInv(cmp, sh, ch, w)
    requires w.i in w.prev && Load(sh, w.prev[w.i], w.i).Some?
    ensures sh1 == Store(sh, w.x, w.i, Load(sh, w.prev[w.i], w.i).value)
    ensures sh2 == Store(sh1, w.prev[w.i], w.i, Some(w.x))
    ensures LinkSteps(cmp, sh, w) == (sh2, AfterLevel(w))
    ensures Levels(cmp, sh2, ch') && |ch'| == MAX_HEIGHT && WriterInv(cmp, sh2, ch', AfterLevel(w))
    ensures Gained(ch, ch', w.i, w.i + 1, w.x)
    ensures BottomKeys(cmp, sh2, ch') ==
            if w.i == 0 then InsertSorted(cmp, BottomKeys(cmp, sh, ch), w.key) else BottomKeys(cmp, sh, ch)
  {
    hide TotalPreorder, Levels, Linking, PrevOn, BottomKeys, WriterInv, WriterStepOf, InsertSorted, Load;
    InitIs(cmp, sh, w);
    InitKeepsInv(cmp, sh, ch, w);
    sh1 := WriterStepOf(cmp, sh, w, 1).0;
    var w1 := Publish(w.x, w.key, w.prev, w.height, w.i);
    PublishIs(cmp, sh1, w1);
    ch' := PublishKeepsInv(cmp, sh1, ch, w1);
    sh2 := WriterStepOf(cmp, sh1, w1, 1).0;
    BottomGains(cmp, sh1, ch, sh2, ch', w1);
    SameKeys(cmp, sh, sh1, ch);
    LevelsLength(cmp, sh, ch);
    LevelsLength(cmp, sh2, ch');
  }

  class SkipList<K(!new)> {
    const cmp: (K, K) -> int
    const head: Node<K>
    var maxHeight: nat
    const rnd: Random.Random
    ghost var nodes: seq<Node<K>>
    ghost var sh: Shared<K>
    ghost var levels: seq<seq<nat>>

    /** The object a pointer stands for. */
    ghost function Object(p: Option<nat>): Node?<K>
      reads `nodes
    {
      if p.Some? && p.value < |nodes| then nodes[p.value] else null
    }

    ghost predicate Mirrors(n: nat)
      requires n < |nodes| && n < |sh.nodes|
      reads `nodes, `sh, nodes[n]
    {
      && nodes[n].key == sh.nodes[n].key && |nodes[n].nexts| == sh.nodes[n].height
      && forall l :: 0 <= l < sh.nodes[n].height && Load(sh, n, l).Some? ==>
           && nodes[n].nexts[l] == Object(Load(sh, n, l).value)
           && (Load(sh, n, l).value.Some? ==> Load(sh, n, l).value.value < |nodes|)
    }

    /** The objects are the shared memory. */
    ghost predicate InMemory()
      reads `nodes, `sh, nodes
    {
      && |nodes| == |sh.nodes|
      && (forall n, l :: (n, l) in sh.next ==> n < |sh.nodes|)
      && (forall i, j :: 0 <= i < j < |nodes| ==> nodes[i] != nodes[j])
      && (forall n :: 0 <= n < |nodes| ==> Mirrors(n))
    }

    ghost predicate Valid()
      reads this, nodes, rnd
    {
      && TotalPreorder(cmp) && rnd.Valid()
      && nodes != [] && head == nodes[0]
      && InMemory()
      && maxHeight == sh.maxHeight && Levels(cmp, sh, levels)
    }

    /** The keys in the list, ascending. */
    ghost function Keys(): seq<K>
      requires Valid()
      reads this, nodes, rnd
    {
      BottomKeys(cmp, sh, levels)
    }

    constructor (c: (K, K) -> int)
      requires TotalPreorder(c)
      ensures Valid() && Keys() == [] && cmp == c
      ensures fresh(rnd) && fresh(nodes) && rnd.seed == 0x5ead_beef
    {
      cmp := c;
      head := new Node(None, MAX_HEIGHT);
      maxHeight := 1;
      rnd := new Random.Random(0xdead_beef);
      new;
      nodes := [head];
      sh := Init<K>([]).sh;
      levels := EmptyLevels(cmp);
      hide *;
      for i := 0 to MAX_HEIGHT
        invariant nodes == [head] && |head.nexts| == MAX_HEIGHT && fresh(head)
        invariant forall l :: 0 <= l < i ==> head.nexts[l] == null
        modifies head
      {
        head.SetNext(i, null);
      }
      Starts();
    }

    lemma Starts()
      requires TotalPreorder(cmp) && rnd.Valid() && maxHeight == 1
      requires nodes == [head] && sh == Init<K>([]).sh
      requires head.key.None? && |head.nexts| == MAX_HEIGHT
               && forall l :: 0 <= l < MAX_HEIGHT ==> head.nexts[l] == null
      requires Levels(cmp, sh, levels) && BottomKeys(cmp, sh, levels) == []
      ensures Valid() && Keys() == []
    {
      hide TotalPreorder, Levels, BottomKeys;
      assert Mirrors(0);
    }

    /** `randomHeight`: one more level for every draw divisible by four. */
    method RandomHeight() returns (height: nat)
      requires rnd.Valid()
      modifies rnd
      ensures rnd.Valid() && 1 <= height <= 12 && height <= MAX_HEIGHT && Draws(old(rnd.seed), height, rnd.seed)
    {
      height := 1;
      var more := true;
      while height < MAX_HEIGHT && more
        invariant rnd.Valid() && 1 <= height <= MAX_HEIGHT
        invariant forall i :: 1 <= i < height ==> Random.SeedAfter(old(rnd.seed), i) % 4 == 0
        invariant rnd.seed == Random.SeedAfter(old(rnd.seed), if more then height - 1 else height)
        invariant !more ==> height < MAX_HEIGHT && rnd.seed % 4 != 0
        decreases MAX_HEIGHT - height, more
      {
        more := rnd.OneIn(4);
        if more { height := height + 1; }
      }
    }

    predicate KeyIsAfterNode(k: K, n: Node?<K>)
      requires n != null ==> n.key.Some?
    {
      n != null && cmp(n.key.value, k) < 0
    }

    // ----- searches

    /** The search is at object `x`, number `j` on level `l`. */
    ghost predicate Standing(l: nat, j: nat, x: Node<K>)
      reads this
    {
      && l < maxHeight && l < |levels| && j < |levels[l]|
      && levels[l][j] < |nodes| && x == nodes[levels[l][j]]
    }

    lemma Start()
      requires Valid()
      ensures 1 <= maxHeight <= MAX_HEIGHT == |levels| && maxHeight == sh.maxHeight
      ensures Standing(maxHeight - 1, 0, head)
    {
      hide TotalPreorder, InMemory;
      assert Chain(cmp, sh, levels[maxHeight - 1], maxHeight - 1);
    }

    /** A load at the place of the search gives the object that follows on the level. */
    lemma LoadFollows(l: nat, j: nat, x: Node<K>)
      requires Valid() && Standing(l, j, x)
      ensures l < |x.nexts| && (x.nexts[l] == null <==> j + 1 == |levels[l]|)
      ensures j > 0 ==> HasKey(sh, levels[l][j]) && x.key == Some(Key(sh, levels[l][j]))
      ensures j == 0 <==> x == head
      ensures x.nexts[l] != null ==>
                && Standing(l, j + 1, x.nexts[l])
                && HasKey(sh, levels[l][j + 1]) && x.nexts[l].key == Some(Key(sh, levels[l][j + 1]))
    {
      hide TotalPreorder;
      ChainLoad(cmp, sh, levels[l], l, j);
      assert Mirrors(levels[l][j]);
      if j + 1 < |levels[l]| {
        assert Mirrors(levels[l][j + 1]);
      }
      if j > 0 {
        assert levels[l][j] != 0;
      }
    }

    /** Every node of a level is on the level below. */
    lemma TurnDown(l: nat, j: nat, x: Node<K>) returns (j': nat)
      requires Valid() && Standing(l, j, x) && l > 0
      ensures Standing(l - 1, j', x) && levels[l - 1][j'] == levels[l][j]
      ensures j' > 0 ==> j > 0
    {
      hide TotalPreorder, InMemory;
      assert Within(levels[l], levels[l - 1]);
      var n := levels[l][j];
      assert n in levels[l - 1];
      j' :| 0 <= j' < |levels[l - 1]| && levels[l - 1][j'] == n;
      assert Chain(cmp, sh, levels[l - 1], l - 1) && Chain(cmp, sh, levels[l], l);
    }

    lemma StopsBelow(k: K, j: nat)
      requires Valid() && StopsAt(cmp, sh, levels[0], k, j)
      ensures LowerBound(cmp, Keys(), k) == j
    {
      assert Chain(cmp, sh, levels[0], 0);
      StopIsLowerBound(cmp, sh, levels[0], 0, k, j);
    }

    /** Object number `i` of the bottom level; number 0 is the head. */
    ghost predicate IsNumber(i: nat, x: Node<K>)
      reads this
    {
      |levels| > 0 && i < |levels[0]| && levels[0][i] < |nodes| && x == nodes[levels[0][i]]
    }

    /** Where the search for `k` stopped on level `l`, as a position and as an object. */
    ghost predicate StoppedAt(l: nat, k: K, j: nat, x: Node?<K>)
      reads this
    {
      && l < |levels| && StopsAt(cmp, sh, levels[l], k, j)
      && levels[l][j] < |nodes| && x == nodes[levels[l][j]]
    }

    /** The first node at or above `k`, or null. */
    ghost predicate FirstAtOrAbove(k: K, x: Node?<K>)
      requires Valid()
      reads this, nodes, rnd
    {
      var i := LowerBound(cmp, Keys(), k);
      if i < |Keys()| then x != null && IsNumber(i + 1, x) && x.key == Some(Keys()[i]) else x == null
    }

    /** What the comparison at the loaded node says about the chain. */
    lemma Compared(l: nat, j: nat, x: Node<K>, k: K)
      requires Valid() && Standing(l, j, x)
      requires j > 0 ==> KeyBelow(cmp, sh, levels[l][j], k)
      ensures l < |x.nexts| && (x.nexts[l] != null ==> x.nexts[l].key.Some?)
      ensures if KeyIsAfterNode(k, x.nexts[l])
              then Standing(l, j + 1, x.nexts[l]) && KeyBelow(cmp, sh, levels[l][j + 1], k)
              else StoppedAt(l, k, j, x)
    {
      hide TotalPreorder;
      LoadFollows(l, j, x);
      hide Valid;
    }

    lemma FoundFirst(j: nat, x: Node<K>, k: K)
      requires Valid() && Standing(0, j, x) && StoppedAt(0, k, j, x)
      ensures |x.nexts| > 0 && FirstAtOrAbove(k, x.nexts[0])
    {
      hide TotalPreorder;
      LoadFollows(0, j, x);
      KeysAre();
      StopsBelow(k, j);
      hide Valid, StopsAt;
    }

    /** Where the search for `k` stopped on the levels from `from` up. */
    ghost predicate StoppedFrom(from: nat, k: K, stops: seq<nat>, prev: seq<Node?<K>>)
      reads this
    {
      && |stops| == maxHeight <= MAX_HEIGHT == |prev|
      && forall l :: from <= l < maxHeight ==> StoppedAt(l, k, stops[l], prev[l])
    }

    lemma StopsToo(l: nat, k: K, stops: seq<nat>, prev: seq<Node?<K>>, j: nat, x: Node?<K>)
      requires l < maxHeight && StoppedFrom(l + 1, k, stops, prev) && StoppedAt(l, k, j, x)
      ensures StoppedFrom(l, k, stops[l := j], prev[l := x])
    {
      hide StoppedAt;
    }

    /** The search for `k` is at `at` on level `level`, and `prev` is filled above. */
    ghost predicate Searching(level: nat, j: nat, at: Node<K>, k: K, stops: seq<nat>, prev: array?<Node?<K>>)
      reads this, nodes, rnd, prev
    {
      && Valid() && level < maxHeight && Standing(level, j, at)
      && (j > 0 ==> KeyBelow(cmp, sh, levels[level][j], k))
      && (prev != null ==> StoppedFrom(level + 1, k, stops, prev[..]))
    }

    lemma SearchStarts(k: K, stops: seq<nat>, prev: array?<Node?<K>>)
      requires Valid() && (prev != null ==> |stops| == maxHeight && prev.Length == MAX_HEIGHT)
      ensures 1 <= maxHeight && Searching(maxHeight - 1, 0, head, k, stops, prev)
    {
      Start();
      hide Valid;
    }

    lemma SearchMoves(level: nat, j: nat, at: Node<K>, k: K, stops: seq<nat>, prev: array?<Node?<K>>)
      requires Searching(level, j, at, k, stops, prev)
      ensures level < |levels| && j < |levels[level]|
      ensures level < |at.nexts| && (at.nexts[level] != null ==> at.nexts[level].key.Some?)
      ensures if KeyIsAfterNode(k, at.nexts[level])
              then at.nexts[level] != null && j + 1 < |levels[level]|
                  && Searching(level, j + 1, at.nexts[level], k, stops, prev)
              else StoppedAt(level, k, j, at)
    {
      Compared(level, j, at, k);
      hide Valid, StoppedFrom, StoppedAt;
    }

    /** Line 180. */
    method Record(prev: array?<Node?<K>>, level: nat, at: Node<K>, ghost k: K, ghost stops: seq<nat>, ghost j: nat)
      returns (ghost stops': seq<nat>)
      requires Searching(level, j, at, k, stops, prev) && StoppedAt(level, k, j, at)
      modifies prev
      ensures Valid() && Standing(level, j, at) && StoppedAt(level, k, j, at) && level < maxHeight
      ensures j > 0 ==> KeyBelow(cmp, sh, levels[level][j], k)
      ensures prev != null ==> StoppedFrom(level, k, stops', prev[..])
    {
      hide Valid, StoppedAt;
      stops' := stops;
      if prev != null {
        StopsToo(level, k, stops, prev[..], j, at);
        ghost var before := prev[..];
        prev[level] := at;
        assert prev[..] == before[level := at];
        stops' := stops[level := j];
      }
    }

    lemma SearchTurnsDown(level: nat, j: nat, at: Node<K>, k: K, stops: seq<nat>,
                          prev: array?<Node?<K>>) returns (j': nat)
      requires Valid() && Standing(level, j, at) && 0 < level
      requires j > 0 ==> KeyBelow(cmp, sh, levels[level][j], k)
      requires prev != null ==> StoppedFrom(level, k, stops, prev[..])
      ensures Searching(level - 1, j', at, k, stops, prev)
    {
      j' := TurnDown(level, j, at);
      hide Valid;
    }

    /** The first node at or above `k`; `prev`, when given, receives the last node before `k`
        on every level in use. */
    method FindGreaterOrEqual(k: K, prev: array?<Node?<K>>) returns (x: Node?<K>, ghost stops: seq<nat>)
      requires Valid() && (prev != null ==> prev.Length == MAX_HEIGHT)
      modifies prev
      ensures Valid() && FirstAtOrAbove(k, x)
      ensures prev != null ==> StoppedFrom(0, k, stops, prev[..])
    {
      hide *;
      stops := seq(maxHeight, _ => 0);
      SearchStarts(k, stops, prev);
      var at: Node<K> := head;
      var level := maxHeight - 1;
      ghost var j: nat := 0;
      while true
        invariant 0 <= level && Searching(level, j, at, k, stops, prev)
        decreases level, if level < |levels| then |levels[level]| - j else 0
      {
        SearchMoves(level, j, at, k, stops, prev);
        var next := at.Next(level);
        if KeyIsAfterNode(k, next) {
          at := next;
          j := j + 1;
        } else {
          stops := Record(prev, level, at, k, stops, j);
          if level == 0 {
            FoundFirst(j, at, k);
            return next, stops;
          }
          j := SearchTurnsDown(level, j, at, k, stops, prev);
          level := level - 1;
        }
      }
    }

    lemma KeysAre()
      requires Valid()
      ensures |levels| > 0 && |Keys()| + 1 == |levels[0]|
      ensures forall i :: 0 <= i < |Keys()| ==> HasKey(sh, levels[0][i + 1]) && Keys()[i] == Key(sh, levels[0][i + 1])
    {
      hide TotalPreorder;
      assert Chain(cmp, sh, levels[0], 0);
    }

    /** The last node below `k`, or the head. */
    method FindLessThan(k: K) returns (x: Node<K>)
      requires Valid()
      ensures IsNumber(LowerBound(cmp, Keys(), k), x)
    {
      hide *;
      SearchStarts(k, [], null);
      x := head;
      var level := maxHeight - 1;
      ghost var j: nat := 0;
      while true
        invariant 0 <= level && Searching(level, j, x, k, [], null)
        decreases level, if level < |levels| then |levels[level]| - j else 0
      {
        SearchMoves(level, j, x, k, [], null);
        KeyIsBelow(level, j, x, k);
        assert x == head || (x.key.Some? && cmp(x.key.value, k) < 0);
        var next := x.Next(level);
        if next == null || cmp(next.key.value, k) >= 0 {
          if level == 0 {
            FoundLast(j, x, k);
            return;
          }
          j := SearchTurnsDown(level, j, x, k, [], null);
          level := level - 1;
        } else {
          x := next;
          j := j + 1;
        }
      }
    }

    /** The search for a smaller key stands on one, or on the head. */
    lemma KeyIsBelow(level: nat, j: nat, at: Node<K>, k: K)
      requires Searching(level, j, at, k, [], null)
      requires level < |at.nexts| && (at.nexts[level] != null ==> at.nexts[level].key.Some?)
      ensures Valid() && Standing(level, j, at) && (j > 0 ==> KeyBelow(cmp, sh, levels[level][j], k))
      ensures at == head || (at.key.Some? && cmp(at.key.value, k) < 0)
      ensures KeyIsAfterNode(k, at.nexts[level]) <==> at.nexts[level] != null && cmp(at.nexts[level].key.value, k) < 0
    {
      LoadFollows(level, j, at);
      hide Valid;
    }

    lemma FoundLast(j: nat, x: Node<K>, k: K)
      requires Valid() && Standing(0, j, x) && StoppedAt(0, k, j, x)
      ensures IsNumber(LowerBound(cmp, Keys(), k), x)
    {
      hide TotalPreorder;
      StopsBelow(k, j);
      hide Valid, StopsAt;
    }

    /** The last node, or the head. */
    method FindLast() returns (x: Node<K>)
      requires Valid()
      ensures IsNumber(|Keys()|, x)
    {
      Start();
      hide Valid, TotalPreorder;
      x := head;
      var level := maxHeight - 1;
      ghost var j: nat := 0;
      while true
        invariant 0 <= level < maxHeight
        invariant Standing(level, j, x)
        decreases level, |levels[level]| - j
      {
        LoadFollows(level, j, x);
        var next := x.Next(level);
        if next == null {
          if level == 0 {
            KeysAre();
            return;
          }
          j := TurnDown(level, j, x);
          level := level - 1;
        } else {
          x := next;
          j := j + 1;
        }
      }
    }

    lemma KeysAscend()
      requires Valid()
      ensures TotalPreorder(cmp) && Ascending(cmp, Keys())
    {
      hide TotalPreorder;
      assert Chain(cmp, sh, levels[0], 0);
      ChainKeys(cmp, sh, levels[0], 0);
    }

    // ----- the bottom level by number

    lemma HeadNumber()
      requires Valid()
      ensures IsNumber(0, head)
    {
      hide TotalPreorder, InMemory;
      assert Chain(cmp, sh, levels[0], 0);
    }

    lemma NumberedKey(i: nat, x: Node<K>)
      requires Valid() && i < |Keys()| && IsNumber(i + 1, x)
      ensures x.key == Some(Keys()[i])
    {
      KeysAre();
      Start();
      LoadFollows(0, i + 1, x);
    }

    lemma NumberedNext(i: nat, x: Node<K>)
      requires Valid() && IsNumber(i, x)
      ensures |x.nexts| > 0 && i <= |Keys()|
      ensures if i < |Keys()| then x.nexts[0] != null && IsNumber(i + 1, x.nexts[0]) else x.nexts[0] == null
    {
      KeysAre();
      Start();
      LoadFollows(0, i, x);
    }

    lemma OnlyHeadIsZero(i: nat, x: Node<K>)
      requires Valid() && IsNumber(i, x)
      ensures i <= |Keys()| && (x == head <==> i == 0)
    {
      KeysAre();
      Start();
      LoadFollows(0, i, x);
    }

    lemma SameNumber(i: nat, x: Node<K>, y: Node<K>)
      requires IsNumber(i, x) && IsNumber(i, y)
      ensures x == y
    {
    }

    method Contains(k: K) returns (b: bool)
      requires Valid()
      ensures b <==> SortedKeys.Contains(cmp, Keys(), k)
    {
      hide Valid, TotalPreorder;
      var x, stops := FindGreaterOrEqual(k, null);
      assert x != null ==> x.key.Some?;
      b := x != null && cmp(k, x.key.value) == 0;
      KeysAscend();
      LowerBoundFinds(cmp, Keys(), k);
    }

    // ----- insertion

    /** The writer's predecessor table, from the places where the search stopped. */
    ghost function PrevIds(stops: seq<nat>): map<nat, nat>
      requires |stops| <= |levels| && forall l :: 0 <= l < |stops| ==> stops[l] < |levels[l]|
      reads this
    {
      map l: nat | 0 <= l < |stops| :: levels[l][stops[l]]
    }

    /** `prev[l]` is the object of node `ids[l]`, on the levels below `end`. */
    ghost predicate PrevObjects(prev: seq<Node?<K>>, ids: map<nat, nat>, end: nat)
      reads `nodes
    {
      |prev| == MAX_HEIGHT && end <= MAX_HEIGHT
      && forall l :: 0 <= l < end ==> l in ids && ids[l] < |nodes| && prev[l] == nodes[ids[l]]
    }

    lemma SearchFeedsWriter(k: K, stops: seq<nat>, prev: seq<Node?<K>>)
      requires Valid() && StoppedFrom(0, k, stops, prev) && !SortedKeys.Contains(cmp, Keys(), k)
      ensures |stops| <= |levels| && forall l :: 0 <= l < |stops| ==> stops[l] < |levels[l]|
      ensures PrevObjects(prev, PrevIds(stops), maxHeight)
      ensures WriterInv(cmp, sh, levels, ChooseHeight(k, PrevIds(stops)))
      ensures forall l: nat :: l in PrevIds(stops) <==> l < sh.maxHeight
    {
      hide TotalPreorder, InMemory;
      forall l | 0 <= l < maxHeight
        ensures StoppedAt(l, k, stops[l], prev[l]) && stops[l] < |levels[l]|
        ensures IsPrev(cmp, sh, levels[l], levels[l][stops[l]], k)
      {
        assert StoppedAt(l, k, stops[l], prev[l]);
        StopIsPrev(cmp, sh, levels, l, k, stops[l]);
      }
    }

    /** One store to a node's pointer, in memory and on the object. */
    method StoreLink(ghost n: nat, x: Node<K>, l: nat, target: Node?<K>, ghost p: Option<nat>)
      requires InMemory() && n < |nodes| && x == nodes[n] && l < sh.nodes[n].height
      requires target == Object(p) && (p.Some? ==> p.value < |nodes|)
      modifies this`sh, x
      ensures InMemory() && sh == Store(old(sh), n, l, p)
    {
      assert Mirrors(n);
      x.SetNext(l, target);
      sh := Store(sh, n, l, p);
      forall m | 0 <= m < |nodes|
        ensures Mirrors(m)
      {
        assert old(Mirrors(m));
      }
    }

    /** A fresh node joins the memory; none of its pointers is written yet. */
    method NewNode(k: K, height: nat) returns (x: Node<K>)
      requires InMemory()
      modifies this`sh, this`nodes
      ensures InMemory() && fresh(x) && nodes == old(nodes) + [x]
      ensures sh == old(sh).(nodes := old(sh).nodes + [NodeInfo(Some(k), height)])
    {
      x := new Node(Some(k), height);
      nodes := nodes + [x];
      sh := sh.(nodes := sh.nodes + [NodeInfo(Some(k), height)]);
      forall m | 0 <= m < |nodes|
        ensures Mirrors(m)
      {
        assert m < |nodes| - 1 ==> old(Mirrors(m));
      }
    }

    lemma Predecessor(i: nat, prev: seq<Node?<K>>, w: Writer<K>) returns (p: Node<K>)
      requires InMemory() && Levels(cmp, sh, levels)
      requires w.InitSlot? && w.i == i && WriterInv(cmp, sh, levels, w)
      requires w.x < |nodes| && PrevObjects(prev, w.prev, w.height)
      ensures i < |prev| && prev[i] == p && i in w.prev && w.prev[i] < |nodes| && p == nodes[w.prev[i]]
      ensures w.prev[i] != w.x
      ensures i < |p.nexts| && i < sh.nodes[w.x].height && i < sh.nodes[w.prev[i]].height
              && Load(sh, w.prev[i], i).Some?
      ensures var ptr := Load(sh, w.prev[i], i).value;
              p.nexts[i] == Object(ptr) && (ptr.Some? ==> ptr.value < |nodes|)
    {
      p := prev[i];
      var j :| PrevAt(cmp, sh, levels[i], w.prev[i], w.key, j);
      ChainNodes(cmp, sh, levels[i], i);
      assert Mirrors(w.prev[i]);
    }

    /** One turn of the linking loop: lines 121 and 122. */
    method LinkLevel(x: Node<K>, i: nat, prev: seq<Node?<K>>, ghost w: Writer<K>)
      requires TotalPreorder(cmp) && InMemory() && Levels(cmp, sh, levels)
      requires w.InitSlot? && w.i == i && WriterInv(cmp, sh, levels, w)
      requires w.x < |nodes| && x == nodes[w.x] && PrevObjects(prev, w.prev, w.height)
      modifies this`sh, this`levels, nodes
      ensures InMemory() && Levels(cmp, sh, levels) && sh.maxHeight == old(sh.maxHeight) && |levels| == MAX_HEIGHT
      ensures (sh, AfterLevel(w)) == LinkSteps(cmp, old(sh), w) && WriterInv(cmp, sh, levels, AfterLevel(w))
      ensures sh.nodes == old(sh).nodes && Gained(old(levels), levels, i, i + 1, w.x)
      ensures BottomKeys(cmp, sh, levels) ==
              if i == 0 then InsertSorted(cmp, old(BottomKeys(cmp, sh, levels)), w.key)
              else old(BottomKeys(cmp, sh, levels))
    {
      hide TotalPreorder, Levels, Mirrors, BottomKeys, InMemory, WriterInv, LinkSteps, Load, PrevObjects, Gained,
           InsertSorted;
      ghost var q := Predecessor(i, prev, w);
      ghost var sh1, sh2, ch' := LinkStepsKeepInv(cmp, sh, levels, w);
      var p: Node<K> := prev[i];
      var next := p.Next(i);
      StoreLink(w.x, x, i, next, Load(sh, w.prev[i], i).value);
      StoreLink(w.prev[i], p, i, x, Some(w.x));
      levels := ch';
    }

    /** Storing a height touches no node. */
    twostate lemma RaisedMemory()
      requires old(InMemory()) && nodes == old(nodes) && forall n :: n in nodes ==> n.nexts == old(n.nexts)
      requires sh.nodes == old(sh).nodes && sh.next == old(sh).next
      ensures InMemory()
    {
      forall m | 0 <= m < |nodes|
        ensures Mirrors(m)
      {
        assert old(Mirrors(m));
        forall l | 0 <= l < sh.nodes[m].height && Load(sh, m, l).Some?
          ensures Load(sh, m, l) == old(Load(sh, m, l))
        {
        }
      }
    }

    /** Lines 110 to 116: the levels the new node adds start at the head, and the height is stored. */
    method Raise(height: nat, prev: array<Node?<K>>, ghost w: Writer<K>) returns (ghost w': Writer<K>)
      requires 1 <= height <= MAX_HEIGHT && InMemory() && Levels(cmp, sh, levels) && maxHeight == sh.maxHeight
      requires nodes != [] && head == nodes[0]
      requires w.ChooseHeight? && WriterInv(cmp, sh, levels, w) && PrevObjects(prev[..], w.prev, maxHeight)
      modifies `maxHeight, `sh, prev
      ensures InMemory() && Levels(cmp, sh, levels) && maxHeight == sh.maxHeight
      ensures maxHeight == (if height > old(maxHeight) then height else old(maxHeight))
      ensures w'.Allocate? && w'.key == w.key && w'.height == height && WriterInv(cmp, sh, levels, w')
      ensures (sh, w') == WriterStepOf(cmp, old(sh), w, height)
      ensures PrevObjects(prev[..], w'.prev, height)
      ensures forall l :: 0 <= l < prev.Length ==>
                prev[l] == if old(maxHeight) <= l < height then head else old(prev[l])
      ensures BottomKeys(cmp, sh, levels) == old(BottomKeys(cmp, sh, levels))
    {
      hide Levels, WriterInv, InMemory, Mirrors, BottomKeys, Grows;
      ChooseKeepsInv(cmp, sh, levels, w, height);
      if height > maxHeight {
        var i := maxHeight;
        while i < height
          invariant maxHeight <= i <= height
          invariant forall l :: 0 <= l < prev.Length ==> prev[l] == if maxHeight <= l < i then head else old(prev[l])
          modifies prev
        {
          prev[i] := head;
          i := i + 1;
        }
        maxHeight := height;
      }
      SameKeys(cmp, sh, WriterStepOf(cmp, sh, w, height).0, levels);
      w' := WriterStepOf(cmp, sh, w, height).1;
      ghost var raised := WriterStepOf(cmp, sh, w, height).0;
      hide WriterStepOf;
      sh := raised;
      RaisedMemory();
    }

    /** Line 118, and the writer's step with it. */
    method Allocated(key: K, prev: seq<Node?<K>>, height: nat, ghost w: Writer<K>) returns (x: Node<K>,
                     ghost w': Writer<K>)
      requires InMemory() && Levels(cmp, sh, levels) && w.Allocate? && w.key == key && w.height == height
               && WriterInv(cmp, sh, levels, w)
      requires PrevObjects(prev, w.prev, height)
      modifies `sh, `nodes
      ensures InMemory() && Levels(cmp, sh, levels) && sh.maxHeight == old(sh).maxHeight
      ensures fresh(x) && nodes == old(nodes) + [x]
      ensures (sh, w') == WriterStepOf(cmp, old(sh), w, 1)
      ensures w' == InitSlot(|old(nodes)|, w.key, w.prev, height, 0) && WriterInv(cmp, sh, levels, w')
      ensures sh.nodes == old(sh).nodes + [NodeInfo(Some(key), height)] && |old(nodes)| == |old(sh).nodes|
      ensures PrevObjects(prev, w.prev, height)
      ensures BottomKeys(cmp, sh, levels) == old(BottomKeys(cmp, sh, levels))
    {
      AllocateKeepsInv(cmp, sh, levels, w);
      hide Levels, WriterInv, Mirrors, BottomKeys;
      SameKeys(cmp, sh, WriterStepOf(cmp, sh, w, 1).0, levels);
      w' := WriterStepOf(cmp, sh, w, 1).1;
      x := NewNode(key, height);
    }

    lemma NotFound(key: K, x: Node?<K>)
      requires Valid() && FirstAtOrAbove(key, x) && !SortedKeys.Contains(cmp, Keys(), key)
      ensures x == null || (x.key.Some? && cmp(key, x.key.value) != 0)
    {
      if x != null {
        var i := LowerBound(cmp, Keys(), key);
        assert Keys()[i] in Keys();
        hide Valid;
      }
    }

    /** The first `i` levels of the new node are linked, from the memory and levels given. */
    ghost predicate LinkedTo(i: nat, w: Writer<K>, before: Shared<K>, was: seq<seq<nat>>)
      requires Levels(cmp, before, was) && w.InitSlot?
      reads this
    {
      && Levels(cmp, sh, levels) && |levels| == MAX_HEIGHT
      && sh.maxHeight == before.maxHeight && sh.nodes == before.nodes
      && WriterInv(cmp, sh, levels, AtLevel(w, i))
      && Reaches(cmp, before, w, w.height, sh, AtLevel(w, i))
      && Gained(was, levels, 0, i, w.x)
      && BottomKeys(cmp, sh, levels) ==
         if i == 0 then BottomKeys(cmp, before, was) else InsertSorted(cmp, BottomKeys(cmp, before, was), w.key)
    }

    lemma LinkedNone(w: Writer<K>)
      requires Levels(cmp, sh, levels) && w.InitSlot? && w.i == 0 && WriterInv(cmp, sh, levels, w)
      ensures LinkedTo(0, w, sh, levels) && w.height > 0
    {
      hide BottomKeys, Reaches;
      ReachesNow(cmp, sh, w, w.height);
    }

    lemma LinkedAll(w: Writer<K>, before: Shared<K>, was: seq<seq<nat>>)
      requires Levels(cmp, before, was) && w.InitSlot? && LinkedTo(w.height, w, before, was) && w.height > 0
      ensures Levels(cmp, sh, levels) && sh.maxHeight == before.maxHeight && sh.nodes == before.nodes
      ensures Gained(was, levels, 0, w.height, w.x)
      ensures Reaches(cmp, before, w, w.height, sh, Idle)
      ensures BottomKeys(cmp, sh, levels) == InsertSorted(cmp, BottomKeys(cmp, before, was), w.key)
    {
      hide Reaches, Levels, WriterInv, BottomKeys, InsertSorted, Gained;
    }

    /** One more turn of the linking loop. */
    method LinkNext(x: Node<K>, i: nat, prev: seq<Node?<K>>, ghost w: Writer<K>, ghost before: Shared<K>,
                    ghost was: seq<seq<nat>>)
      requires TotalPreorder(cmp) && InMemory() && Levels(cmp, before, was) && w.InitSlot? && i < w.height
      requires LinkedTo(i, w, before, was)
      requires w.x < |nodes| && x == nodes[w.x] && PrevObjects(prev, w.prev, w.height)
      modifies `sh, `levels, nodes
      ensures InMemory() && LinkedTo(i + 1, w, before, was)
    {
      hide TotalPreorder, Levels, InMemory, Mirrors, WriterInv, BottomKeys, LowerBound, InsertSorted, PrevObjects,
           Gained;
      hide Reaches, LinkSteps;
      ghost var mid, sh0 := levels, sh;
      LinkLevel(x, i, prev, AtLevel(w, i));
      GainedMore(was, mid, levels, i, w.x);
      LinkReaches(cmp, sh0, AtLevel(w, i), w.height);
      ReachesMore(cmp, before, w, w.height, sh0, AtLevel(w, i), sh, AtLevel(w, i + 1));
    }

    /** Lines 120 to 123: the new node is linked level by level, bottom up. */
    method Link(x: Node<K>, height: nat, prev: seq<Node?<K>>, ghost w: Writer<K>)
      requires TotalPreorder(cmp) && InMemory() && Levels(cmp, sh, levels)
      requires w.InitSlot? && w.i == 0 && w.height == height && WriterInv(cmp, sh, levels, w)
      requires w.x < |nodes| && x == nodes[w.x] && PrevObjects(prev, w.prev, height)
      modifies `sh, `levels, nodes
      ensures InMemory() && Levels(cmp, sh, levels) && sh.maxHeight == old(sh.maxHeight)
      ensures BottomKeys(cmp, sh, levels) == InsertSorted(cmp, old(BottomKeys(cmp, sh, levels)), w.key)
      ensures sh.nodes == old(sh).nodes && Gained(old(levels), levels, 0, height, w.x)
      ensures Reaches(cmp, old(sh), w, height, sh, Idle)
    {
      hide *;
      LinkedNone(w);
      ghost var before, was := sh, levels;
      var i := 0;
      while i < height
        invariant 0 <= i <= height && InMemory() && LinkedTo(i, w, before, was)
        invariant PrevObjects(prev, w.prev, height)
      {
        LinkNext(x, i, prev, w, before, was);
        i := i + 1;
      }
      LinkedAll(w, before, was);
    }

    /** Lines 110 to 123, once the predecessors are known. */
    method InsertAfter(key: K, prev: array<Node?<K>>, ghost w: Writer<K>)
      requires TotalPreorder(cmp) && rnd.Valid() && nodes != [] && head == nodes[0]
      requires InMemory() && maxHeight == sh.maxHeight && Levels(cmp, sh, levels)
      requires w.ChooseHeight? && w.key == key && WriterInv(cmp, sh, levels, w)
               && PrevObjects(prev[..], w.prev, maxHeight)
      modifies this, rnd, nodes, prev
      ensures rnd.Valid() && InMemory() && maxHeight == sh.maxHeight && Levels(cmp, sh, levels)
      ensures BottomKeys(cmp, sh, levels) == InsertSorted(cmp, old(BottomKeys(cmp, sh, levels)), key)
      ensures |nodes| == |old(nodes)| + 1 && old(nodes) <= nodes && fresh(nodes[|old(nodes)|])
      ensures var height := |nodes[|old(nodes)|].nexts|;
              && Draws(old(rnd.seed), height, rnd.seed)
              && maxHeight == (if height > old(maxHeight) then height else old(maxHeight))
              && Gained(old(levels), levels, 0, height, |old(nodes)|)
              && Reaches(cmp, old(sh), w, height, sh, Idle)
    {
      hide *;
      var height := RandomHeight();
      var w' := Raise(height, prev, w);
      ghost var sh1 := sh;
      var x, w'' := Allocated(key, prev[..], height, w');
      ghost var sh2 := sh;
      Link(x, height, prev[..], w'');
      NodeHeight(|old(nodes)|);
      AllReaches(cmp, old(sh), w, height, sh1, w', sh2, w'', sh);
    }

    lemma NodeHeight(n: nat)
      requires InMemory() && n < |nodes|
      ensures |nodes| == |sh.nodes| && |nodes[n].nexts| == sh.nodes[n].height
    {
      assert Mirrors(n);
    }

    /** `insert`: search, draw a height, raise the list if needed, allocate, link bottom up.
        The key must not be in the list. */
    method Insert(key: K)
      requires Valid() && !SortedKeys.Contains(cmp, Keys(), key)
      modifies this, rnd, nodes
      ensures Valid() && Keys() == InsertSorted(cmp, old(Keys()), key)
      ensures |nodes| == |old(nodes)| + 1 && old(nodes) <= nodes && fresh(nodes[|old(nodes)|])
      ensures var height := |nodes[|old(nodes)|].nexts|;
              && Draws(old(rnd.seed), height, rnd.seed)
              && maxHeight == (if height > old(maxHeight) then height else old(maxHeight))
              && Gained(old(levels), levels, 0, height, |old(nodes)|)
              && InsertRuns(cmp, old(sh), key, height, sh)
    {
      hide TotalPreorder, Levels, Mirrors, InMemory, WriterInv, BottomKeys, LowerBound, InsertSorted, PrevObjects,
           PrevIds,
           StoppedFrom, FirstAtOrAbove, Reaches, InsertRuns, Gained;
      var prev := new Node?<K>[MAX_HEIGHT](_ => null);
      var found, stops := FindGreaterOrEqual(key, prev);
      SearchFeedsWriter(key, stops, prev[..]);
      NotFound(key, found);
      assert found == null || (found.key.Some? && cmp(key, found.key.value) != 0);
      ghost var before, was, ids := sh, levels, PrevIds(stops);
      InsertAfter(key, prev, ChooseHeight(key, ids));
      WholeRun(cmp, before, was, key, |nodes[|old(nodes)|].nexts|, ids, sh);
    }
  }
}
