/**
  Snapshot reads: entries of many versions of a user key in one skip list, and a seek for
  the version visible at a sequence number. The memtable that stores entries in this way is
  not part of the repository; the list itself is taken with internal keys.
 */
module Snapshot {
  import opened Wrappers
  import opened Bits
  import opened Order
  import opened Slices
  import opened SortedKeys
  import opened DbFormat
  import opened SkipLists
  import opened SkipListIterators
  import C = ConcurrentSkipList
  import R = ConcurrentReads

  predicate IsEntry(k: InternalKey) {
    ParseInternalKey(k).Some?
  }

  function Entry(k: InternalKey): ParsedInternalKey
    requires IsEntry(k)
  {
    ParseInternalKey(k).value
  }

  /** The entry is a version of `u` that a reader at sequence number `s` may see. */
  predicate Visible(k: InternalKey, u: Bytes, s: nat)
    requires IsEntry(k)
  {
    Entry(k).userKey == u && Entry(k).sequence <= s
  }

  /** The key sought by a snapshot read. */
  function SnapshotKey(u: Bytes, s: nat): InternalKey
    requires s <= MAX_SEQUENCE_NUMBER
  {
    PackValue(s, VALUE_TYPE_FOR_SEEK);
    Encoded(ParsedInternalKey(u, s, VALUE_TYPE_FOR_SEEK))
  }

  lemma SnapshotKeyParses(u: Bytes, s: nat)
    requires s <= MAX_SEQUENCE_NUMBER
    ensures IsEntry(SnapshotKey(u, s)) && Entry(SnapshotKey(u, s)) == ParsedInternalKey(u, s, VALUE_TYPE_FOR_SEEK)
  {
    ParseInvertsEncode(ParsedInternalKey(u, s, VALUE_TYPE_FOR_SEEK));
  }

  /** The entries not before the sought key are the visible versions of `u` and all entries
      of larger user keys. */
  lemma NotBeforeSnapshot(k: InternalKey, u: Bytes, s: nat)
    requires s <= MAX_SEQUENCE_NUMBER && IsEntry(k)
    ensures InternalCompare(k, SnapshotKey(u, s)) >= 0 <==> Visible(k, u, s) || Less(u, Entry(k).userKey)
    ensures InternalCompare(SnapshotKey(u, s), k) <= 0 <==> Visible(k, u, s) || Less(u, Entry(k).userKey)
  {
    hide InternalCompare, ParseInternalKey, SnapshotKey, Less;
    SnapshotKeyParses(u, s);
    CompareOrdersParsed(k, SnapshotKey(u, s));
    InternalCompareTotalOrder();
    Flip(InternalCompare, k, SnapshotKey(u, s));
    CompareIsDictionaryOrder(Entry(k).userKey, u);
  }

  /** Among visible versions the earlier one in the list is the newer one. */
  lemma EarlierIsNewer(a: InternalKey, b: InternalKey, u: Bytes, s: nat)
    requires IsEntry(a) && IsEntry(b) && InternalCompare(a, b) <= 0 && Visible(b, u, s)
    requires Visible(a, u, s) || Less(u, Entry(a).userKey)
    ensures Visible(a, u, s) && Entry(a).sequence >= Entry(b).sequence
  {
    hide InternalCompare, ParseInternalKey, Less;
    CompareOrdersParsed(a, b);
    CompareIsDictionaryOrder(Entry(a).userKey, u);
    CompareIsDictionaryOrder(u, Entry(a).userKey);
  }

  predicate AllEntries(ks: seq<InternalKey>) {
    forall i :: 0 <= i < |ks| ==> IsEntry(ks[i])
  }

  /** Position `i` holds the newest visible version of `u`. */
  ghost predicate IsNewest(ks: seq<InternalKey>, u: Bytes, s: nat, i: nat)
    requires AllEntries(ks)
  {
    && i < |ks| && Visible(ks[i], u, s)
    && forall j :: 0 <= j < |ks| && Visible(ks[j], u, s) ==> Entry(ks[j]).sequence <= Entry(ks[i]).sequence
  }

  /** A seek for the snapshot key stops at the newest visible version of the user key when
      there is one, and otherwise at a larger user key or the end. */
  lemma SeekFindsNewest(ks: seq<InternalKey>, u: Bytes, s: nat)
    requires s <= MAX_SEQUENCE_NUMBER && AllEntries(ks) && Ascending(InternalCompare, ks)
    ensures var i := LowerBound(InternalCompare, ks, SnapshotKey(u, s));
            if exists j :: 0 <= j < |ks| && Visible(ks[j], u, s)
            then IsNewest(ks, u, s, i)
            else i == |ks| || Less(u, Entry(ks[i]).userKey)
  {
    hide InternalCompare, ParseInternalKey, SnapshotKey, Less, Visible, LowerBound, Ascending, IsEntry, Entry,
         IsNewest;
    var i := LowerBound(InternalCompare, ks, SnapshotKey(u, s));
    if i < |ks| {
      NotBeforeSnapshot(ks[i], u, s);
    }
    forall j | 0 <= j < |ks| && Visible(ks[j], u, s)
      ensures i < |ks| && Visible(ks[i], u, s) && Entry(ks[j]).sequence <= Entry(ks[i]).sequence
    {
      VisibleIsAfter(ks, u, s, j);
      EarlierIsNewer(ks[i], ks[j], u, s);
    }
    if i < |ks| && exists j :: 0 <= j < |ks| && Visible(ks[j], u, s) {
      NewestIs(ks, u, s, i);
    }
  }

  lemma NewestIs(ks: seq<InternalKey>, u: Bytes, s: nat, i: nat)
    requires AllEntries(ks) && i < |ks| && forall j :: 0 <= j < |ks| ==> IsEntry(ks[j])
    requires Visible(ks[i], u, s)
    requires forall j :: 0 <= j < |ks| && Visible(ks[j], u, s) ==> Entry(ks[j]).sequence <= Entry(ks[i]).sequence
    ensures IsNewest(ks, u, s, i)
  {
    hide Visible, ParseInternalKey;
  }

  /** The search for the snapshot key does not pass a visible version. */
  lemma VisibleIsAfter(ks: seq<InternalKey>, u: Bytes, s: nat, j: nat)
    requires s <= MAX_SEQUENCE_NUMBER && AllEntries(ks) && Ascending(InternalCompare, ks)
    requires j < |ks| && Visible(ks[j], u, s)
    ensures var i := LowerBound(InternalCompare, ks, SnapshotKey(u, s)); i <= j && InternalCompare(ks[i], ks[j]) <= 0
  {
    hide InternalCompare, ParseInternalKey, SnapshotKey, Less, Visible;
    NotBeforeSnapshot(ks[j], u, s);
    SameComparesEqual(ks[j]);
  }

  lemma SameComparesEqual(k: InternalKey)
    ensures InternalCompare(k, k) == 0
  {
    hide InternalCompare;
    InternalCompareTotalOrder();
  }

  /** A snapshot read on the list: build the lookup key, seek. */
  method SnapshotSeek(it: Iterator<InternalKey>, u: Bytes, s: nat) returns (found: bool)
    requires it.Valid() && it.list.cmp == InternalCompare && AllEntries(it.list.Keys()) && s <= MAX_SEQUENCE_NUMBER
    modifies it
    ensures it.Valid()
    ensures found <==> exists j :: 0 <= j < |it.list.Keys()| && Visible(it.list.Keys()[j], u, s)
    ensures found ==> IsNewest(it.list.Keys(), u, s, it.pos)
    ensures !found ==> it.pos == |it.list.Keys()| || Less(u, Entry(it.list.Keys()[it.pos]).userKey)
  {
    hide *;
    var memtable, internal, user := LookupViews(u, s);
    SnapshotKeyIs(u, s);
    it.KeysAscend();
    SeekDecides(it.list.Keys(), u, s);
    it.Seek(internal);
    var ok := it.IsValid();
    if !ok {
      return false;
    }
    var k := it.Key();
    found := ExtractUserKey(k) == user;
  }

  lemma SnapshotKeyIs(u: Bytes, s: nat)
    requires s <= MAX_SEQUENCE_NUMBER
    ensures SnapshotKey(u, s) == Encoded(ParsedInternalKey(u, s, VALUE_TYPE_FOR_SEEK))
  {
  }

  /** The user key where the seek stops tells whether a version is visible. */
  lemma SeekDecides(ks: seq<InternalKey>, u: Bytes, s: nat)
    requires s <= MAX_SEQUENCE_NUMBER && AllEntries(ks) && Ascending(InternalCompare, ks)
    ensures var i := LowerBound(InternalCompare, ks, SnapshotKey(u, s));
            var hit := i < |ks| && ExtractUserKey(ks[i]) == u;
            && (hit <==> exists j :: 0 <= j < |ks| && Visible(ks[j], u, s))
            && (hit ==> IsNewest(ks, u, s, i))
            && (!hit ==> i == |ks| || Less(u, Entry(ks[i]).userKey))
  {
    hide InternalCompare, ParseInternalKey, SnapshotKey, Less, LowerBound, Ascending, ExtractUserKey;
    SeekFindsNewest(ks, u, s);
    var i := LowerBound(InternalCompare, ks, SnapshotKey(u, s));
    if i < |ks| {
      EntryUserKey(ks[i]);
      CompareIsDictionaryOrder(u, Entry(ks[i]).userKey);
    }
  }

  lemma EntryUserKey(k: InternalKey)
    requires IsEntry(k)
    ensures Entry(k).userKey == ExtractUserKey(k)
  {
  }

  // ----- snapshot reads while insertions go on

  /** The node stood on holds an entry of a larger user key. */
  ghost predicate AtLarger(sh: C.Shared<InternalKey>, node: Option<nat>, u: Bytes) {
    node.Some? && C.HasKey(sh, node.value) && IsEntry(C.Key(sh, node.value))
        && Less(u, Entry(C.Key(sh, node.value)).userKey)
  }

  /** What reader `r` has found, if it is a visible version. */
  predicate Found(sh: C.Shared<InternalKey>, node: Option<nat>, u: Bytes, s: nat) {
    node.Some? && C.HasKey(sh, node.value) && IsEntry(C.Key(sh, node.value)) && Visible(C.Key(sh, node.value), u, s)
  }

  /** A snapshot read concurrent with insertions of entries: when the seek ends on a visible
      version of `u`, no visible version that was present when it began is newer; when it
      ends anywhere else, it is at a larger user key or at the end, and none was present. */
  lemma ConcurrentSnapshotRead(s0: C.State<InternalKey>, pre: seq<C.Action<InternalKey>>, r: nat, u: Bytes, s: nat,
                               post: seq<C.Action<InternalKey>>)
    requires s <= MAX_SEQUENCE_NUMBER && C.Initial(s0)
    requires C.Legal(InternalCompare, s0, pre)
    requires C.Enabled(InternalCompare, C.Run(InternalCompare, s0, pre), C.BeginOp(r, C.Seek(SnapshotKey(u, s))))
    requires C.Legal(InternalCompare,
                     C.Step(InternalCompare, C.Run(InternalCompare, s0, pre), C.BeginOp(r, C.Seek(SnapshotKey(u, s)))),
                     post)
    requires R.NoNewOp(post, r) && R.NoNext(post, r)
    requires R.InsertsOnly(pre, IsEntry) && R.InsertsOnly(post, IsEntry)
    ensures var b := C.Run(InternalCompare, s0, pre);
            var e := C.Run(InternalCompare, C.Step(InternalCompare, b, C.BeginOp(r, C.Seek(SnapshotKey(u, s)))),
                           post);
            r < |e.readers| &&
            (e.readers[r].pc.At? ==>
               && (forall n :: n in C.Present(b.sh) ==> C.HasKey(e.sh, n) && IsEntry(C.Key(e.sh, n)))
               && (e.readers[r].pc.node.None?
                   || Found(e.sh, e.readers[r].pc.node, u, s) || AtLarger(e.sh, e.readers[r].pc.node, u))
               && (forall n :: n in C.Present(b.sh) && Visible(C.Key(e.sh, n), u, s) ==>
                     && Found(e.sh, e.readers[r].pc.node, u, s)
                     && Entry(C.Key(e.sh, n)).sequence <= Entry(C.Key(e.sh, e.readers[r].pc.node.value)).sequence))
  {
    InternalCompareTotalOrder();
    var b := C.Run(InternalCompare, s0, pre);
    var s1 := C.Step(InternalCompare, b, C.BeginOp(r, C.Seek(SnapshotKey(u, s))));
    var e := C.Run(InternalCompare, s1, post);
    R.SeekMissesNothing(InternalCompare, s0, pre, r, SnapshotKey(u, s), post);
    R.StaysFresh(InternalCompare, s1, post, r);
    R.KeysRun(InternalCompare, s0, pre, IsEntry);
    R.KeysStep(InternalCompare, b, C.BeginOp(r, C.Seek(SnapshotKey(u, s))), IsEntry);
    R.KeysRun(InternalCompare, s1, post, IsEntry);
    hide TotalPreorder, InternalCompare, ParseInternalKey, SnapshotKey, Less, Visible, C.Legal, C.Initial, C.Enabled,
         C.Step, C.Run, C.Present, C.Ahead;
    var rd := e.readers[r];
    if rd.pc.At? {
      FoundOrLarger(e.sh, rd, u, s);
      forall n | n in C.Present(b.sh) && Visible(C.Key(e.sh, n), u, s)
        ensures Found(e.sh, rd.pc.node, u, s)
        ensures Entry(C.Key(e.sh, n)).sequence <= Entry(C.Key(e.sh, rd.pc.node.value)).sequence
      {
        NewestFound(e.sh, rd, u, s, n);
      }
    }
  }

  lemma FoundOrLarger(sh: C.Shared<InternalKey>, rd: C.Reader<InternalKey>, u: Bytes, s: nat)
    requires s <= MAX_SEQUENCE_NUMBER && rd.pc.At? && R.Fresh(rd)
    requires forall m :: m in rd.seen ==> C.HasKey(sh, m) && InternalCompare(SnapshotKey(u, s), C.Key(sh, m)) <= 0
    requires forall m :: C.HasKey(sh, m) ==> IsEntry(C.Key(sh, m))
    ensures rd.pc.node.None? || Found(sh, rd.pc.node, u, s) || AtLarger(sh, rd.pc.node, u)
  {
    hide InternalCompare, ParseInternalKey, SnapshotKey, Less, Visible;
    if rd.pc.node.Some? {
      NotBeforeSnapshot(C.Key(sh, rd.pc.node.value), u, s);
    }
  }

  lemma NewestFound(sh: C.Shared<InternalKey>, rd: C.Reader<InternalKey>, u: Bytes, s: nat, n: nat)
    requires s <= MAX_SEQUENCE_NUMBER && rd.pc.At? && R.Fresh(rd)
    requires C.HasKey(sh, n) && IsEntry(C.Key(sh, n)) && Visible(C.Key(sh, n), u, s)
    requires forall m :: m in rd.seen ==> C.HasKey(sh, m) && InternalCompare(SnapshotKey(u, s), C.Key(sh, m)) <= 0
    requires forall m :: C.HasKey(sh, m) ==> IsEntry(C.Key(sh, m))
    requires InternalCompare(SnapshotKey(u, s), C.Key(sh, n)) <= 0 ==>
               n in rd.seen || (rd.pc.node.Some? && C.Ahead(InternalCompare, sh, rd.pc.node, n))
    ensures Found(sh, rd.pc.node, u, s)
    ensures Entry(C.Key(sh, n)).sequence <= Entry(C.Key(sh, rd.pc.node.value)).sequence
  {
    hide InternalCompare, ParseInternalKey, SnapshotKey, Less, Visible;
    NotBeforeSnapshot(C.Key(sh, n), u, s);
    var m := rd.pc.node.value;
    SameComparesEqual(C.Key(sh, n));
    NotBeforeSnapshot(C.Key(sh, m), u, s);
    EarlierIsNewer(C.Key(sh, m), C.Key(sh, n), u, s);
  }
}
