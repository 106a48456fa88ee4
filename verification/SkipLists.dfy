/** The skip list's memory: pointer slots of the head and of every node, one per level, and the
    single stores by which an insertion changes them while any number of readers search. */
module SkipLists {
  type Key = real

  const MAX_HEIGHT := 12

  // A node is named by the key it holds; the end of a level sorts after all keys.
  datatype Ref = Head | Node(key: Key) | Null

  type Slots = map<(Ref, nat), Ref>

  predicate Before(a: Ref, b: Ref) {
    match (a, b)
    case (Node(k), Node(l)) => k < l
    case (Head, Node(_)) => true
    case (Head, Null) => true
    case (Node(_), Null) => true
    case _ => false
  }

  ghost predicate Between(a: Ref, k: Key, b: Ref) {
    Before(a, Node(k)) && Before(Node(k), b)
  }

  ghost predicate NoneBetween(keys: set<Key>, a: Ref, b: Ref) {
    forall k | k in keys :: !Between(a, k, b)
  }

  // The memory, with the keys linked into each level so far.
  datatype List = List(next: Slots, maxHeight: nat, levels: seq<set<Key>>)

  ghost predicate OnLevel(l: List, r: Ref, i: nat)
    requires i < |l.levels|
  {
    r.Head? || (r.Node? && r.key in l.levels[i])
  }

  // The slot leads to the next larger key of its level, or to the end.
  ghost predicate SlotRight(l: List, r: Ref, i: nat)
    requires i < |l.levels|
  {
    && (r, i) in l.next
    && var n := l.next[(r, i)];
    && Before(r, n) && (n.Node? ==> n.key in l.levels[i])
    && NoneBetween(l.levels[i], r, n)
  }

  ghost predicate LevelRight(l: List, i: nat)
    requires i < |l.levels|
  {
    forall r | OnLevel(l, r, i) :: SlotRight(l, r, i)
  }

  // Every level is a sorted list of its keys, and a sublist of the level below.
  ghost predicate ListInv(l: List) {
    && |l.levels| == MAX_HEIGHT && 1 <= l.maxHeight <= MAX_HEIGHT
    && (forall i | 0 <= i < MAX_HEIGHT :: LevelRight(l, i))
    && (forall i | 0 < i < MAX_HEIGHT :: l.levels[i] <= l.levels[i - 1])
    && (forall i | l.maxHeight <= i < MAX_HEIGHT :: l.levels[i] == {})
  }

  lemma {:induction false} Sublevels(l: List, i: nat, j: nat)
    requires ListInv(l) && i <= j < MAX_HEIGHT
    ensures l.levels[j] <= l.levels[i]
    decreases j
  {
    if i < j {
      Sublevels(l, i, j - 1);
    }
  }

  // ---- Levels as pointer chains

  // The keys met by following a level's pointers.
  ghost function Chain(l: List, r: Ref, i: nat): seq<Key>
    requires i < |l.levels| && LevelRight(l, i) && OnLevel(l, r, i)
    decreases set k | k in l.levels[i] && Before(r, Node(k))
  {
    var hint := SlotRight(l, r, i);
    var n := l.next[(r, i)];
    if n.Null? then [] else
    ChainShrinks(l.levels[i], r, n.key);
    [n.key] + Chain(l, n, i)
  }

  lemma ChainShrinks(keys: set<Key>, r: Ref, k: Key)
    requires k in keys && Before(r, Node(k))
    ensures (set j | j in keys && Before(Node(k), Node(j))) < (set j | j in keys && Before(r, Node(j)))
  {
    var later := set j | j in keys && Before(Node(k), Node(j));
    var all := set j | j in keys && Before(r, Node(j));
    assert later <= all && k in all && k !in later;
  }

  // Following a level from any of its nodes visits exactly the later keys, in increasing order.
  lemma {:induction false} ChainIsSorted(l: List, r: Ref, i: nat)
    requires i < |l.levels| && LevelRight(l, i) && OnLevel(l, r, i)
    ensures var c := Chain(l, r, i);
            && (forall a, b | 0 <= a < b < |c| :: c[a] < c[b])
            && (forall k :: k in c <==> k in l.levels[i] && Before(r, Node(k)))
    decreases set k | k in l.levels[i] && Before(r, Node(k))
  {
    assert SlotRight(l, r, i);
    var n := l.next[(r, i)];
    if n.Node? {
      ChainShrinks(l.levels[i], r, n.key);
      ChainIsSorted(l, n, i);
      var rest := Chain(l, n, i);
      assert forall a | 0 <= a < |rest| :: rest[a] in rest;
      forall k
        ensures k in [n.key] + rest <==> k in l.levels[i] && Before(r, Node(k))
      {
        if k in l.levels[i] && Before(r, Node(k)) {
          assert !Between(r, k, n);
        }
      }
    } else {
      forall k | k in l.levels[i]
        ensures !Before(r, Node(k))
      {
        assert !Between(r, k, n);
      }
    }
  }

  // ---- The writer

  // An insertion in progress: levels below `level` are published; `filled` says that the new
  // node's own pointer at `level` is set.
  datatype Writer = Idle | Linking(key: Key, prev: seq<Ref>, level: nat, filled: bool)

  // The last node of the level before the key.
  ghost predicate IsPrev(l: List, r: Ref, key: Key, i: nat)
    requires i < |l.levels|
  {
    OnLevel(l, r, i) && Before(r, Node(key)) && NoneBetween(l.levels[i], r, Node(key))
  }

  ghost predicate WriterInv(l: List, w: Writer)
    requires |l.levels| == MAX_HEIGHT
  {
    w.Linking? ==>
      && w.level < |w.prev| <= l.maxHeight <= MAX_HEIGHT
      && (forall i | 0 <= i < MAX_HEIGHT :: w.key in l.levels[i] <==> i < w.level)
      && (forall i | w.level <= i < |w.prev| :: IsPrev(l, w.prev[i], w.key, i))
      && (w.filled ==>
            && (Node(w.key), w.level) in l.next && (w.prev[w.level], w.level) in l.next
            && l.next[(Node(w.key), w.level)] == l.next[(w.prev[w.level], w.level)])
  }

  // ---- Readers

  // A search for the border of a target: it stands on a node of `level` before the target and
  // has finished when `next` is set. `began` are the keys present when it began.
  datatype Reader = Reader(target: Ref, x: Ref, level: nat, next: Ref, done: bool, began: set<Key>)

  ghost predicate ReaderInv(l: List, r: Reader)
    requires |l.levels| == MAX_HEIGHT
  {
    && r.level < MAX_HEIGHT && OnLevel(l, r.x, r.level) && Before(r.x, r.target)
    && r.began <= l.levels[0]
    && (r.done ==>
          && !Before(r.next, r.target) && !r.next.Head? && (r.next.Node? ==> r.next.key in l.levels[0])
          && NoneBetween(r.began, r.x, r.next))
  }

  // ---- The steps

  datatype System = System(list: List, writer: Writer, readers: map<nat, Reader>)

  datatype Step =
    // Insert up to and including the store to max_height_
    | BeginInsert(key: Key, prev: seq<Ref>)
    // The new node's own pointer at the current level
    | Fill
    // The predecessor's pointer at the current level
    | Publish
    // A reader loads max_height_, perhaps an older value of it
    | BeginSearch(reader: nat, target: Ref, height: nat)
    // A reader follows one pointer or goes down a level
    | Look(reader: nat)

  ghost predicate Enabled(s: System, step: Step)
    requires ListInv(s.list)
  {
    match step
    case BeginInsert(key, prev) =>
      && s.writer.Idle? && key !in s.list.levels[0] && 1 <= |prev| <= MAX_HEIGHT
      && forall i | 0 <= i < |prev| :: IsPrev(s.list, prev[i], key, i)
    case Fill => s.writer.Linking? && !s.writer.filled
    case Publish => s.writer.Linking? && s.writer.filled
    case BeginSearch(reader, target, height) => !target.Head? && 1 <= height <= s.list.maxHeight
    case Look(reader) => reader in s.readers && !s.readers[reader].done
  }

  ghost predicate Inv(s: System) {
    && ListInv(s.list) && WriterInv(s.list, s.writer)
    && forall id | id in s.readers :: ReaderInv(s.list, s.readers[id])
  }

  function AfterFill(l: List, w: Writer): List
    requires w.Linking? && w.level < |w.prev| && (w.prev[w.level], w.level) in l.next
  {
    l.(next := l.next[(Node(w.key), w.level) := l.next[(w.prev[w.level], w.level)]])
  }

  function AfterPublish(l: List, w: Writer): List
    requires w.Linking? && w.level < |w.prev| && w.level < |l.levels|
  {
    l.(next := l.next[(w.prev[w.level], w.level) := Node(w.key)],
       levels := l.levels[w.level := l.levels[w.level] + {w.key}])
  }

  function Looked(l: List, r: Reader): Reader
    requires (r.x, r.level) in l.next
  {
    var next := l.next[(r.x, r.level)];
    if Before(next, r.target) then r.(x := next)
    else if r.level == 0 then r.(next := next, done := true)
    else r.(level := r.level - 1)
  }

  ghost function Next(s: System, step: Step): System
    requires Inv(s) && Enabled(s, step)
  {
    match step
    case BeginInsert(key, prev) =>
      var height := if |prev| > s.list.maxHeight then |prev| else s.list.maxHeight;
      s.(list := s.list.(maxHeight := height), writer := Linking(key, prev, 0, false))
    case Fill =>
      var (p, i) := (s.writer.prev[s.writer.level], s.writer.level);
      var hints := (IsPrev(s.list, p, s.writer.key, i), LevelRight(s.list, i), SlotRight(s.list, p, i));
      s.(list := AfterFill(s.list, s.writer), writer := s.writer.(filled := true))
    case Publish =>
      var done := s.writer.level + 1 == |s.writer.prev|;
      s.(list := AfterPublish(s.list, s.writer),
         writer := if done then Idle else s.writer.(level := s.writer.level + 1, filled := false))
    case BeginSearch(reader, target, height) =>
      s.(readers := s.readers[reader := Reader(target, Head, height - 1, Null, false, s.list.levels[0])])
    case Look(reader) =>
      var r := s.readers[reader];
      var hints := (ReaderInv(s.list, r), LevelRight(s.list, r.level), SlotRight(s.list, r.x, r.level));
      s.(readers := s.readers[reader := Looked(s.list, r)])
  }

  function HeadSlots(n: nat): (r: Slots)
    ensures forall i | 0 <= i < n :: (Head, i) in r && r[(Head, i)] == Null
  {
    if n == 0 then map[] else HeadSlots(n - 1)[(Head, n - 1) := Null]
  }

  const EMPTY := System(List(HeadSlots(MAX_HEIGHT), 1, seq(MAX_HEIGHT, _ => {})), Idle, map[])

  lemma EmptyInv()
    ensures Inv(EMPTY)
  {
    var l := EMPTY.list;
    forall i, r | 0 <= i < MAX_HEIGHT && OnLevel(l, r, i)
      ensures SlotRight(l, r, i)
    {
      assert r == Head;
    }
  }

  // ---- Each step keeps the invariant

  lemma RaiseKeepsInv(s: System, key: Key, prev: seq<Ref>)
    requires Inv(s) && Enabled(s, BeginInsert(key, prev))
    ensures Inv(Next(s, BeginInsert(key, prev)))
  {
    var t := Next(s, BeginInsert(key, prev));
    forall i, r | 0 <= i < MAX_HEIGHT && OnLevel(t.list, r, i)
      ensures SlotRight(t.list, r, i)
    {
      assert OnLevel(s.list, r, i) && LevelRight(s.list, i) && SlotRight(s.list, r, i);
    }
    forall i | 0 <= i < MAX_HEIGHT
      ensures key !in t.list.levels[i]
    {
      Sublevels(s.list, 0, i);
    }
    forall i | 0 <= i < |prev|
      ensures IsPrev(t.list, prev[i], key, i)
    {
      assert IsPrev(s.list, prev[i], key, i);
    }
  }

  lemma FillKeepsInv(s: System)
    requires Inv(s) && Enabled(s, Fill)
    ensures Inv(Next(s, Fill))
  {
    var w := s.writer;
    var t := Next(s, Fill);
    assert IsPrev(s.list, w.prev[w.level], w.key, w.level);
    assert LevelRight(s.list, w.level) && SlotRight(s.list, w.prev[w.level], w.level);
    forall i, r | 0 <= i < MAX_HEIGHT && OnLevel(t.list, r, i)
      ensures SlotRight(t.list, r, i)
    {
      assert OnLevel(s.list, r, i) && LevelRight(s.list, i) && SlotRight(s.list, r, i);
    }
    forall i | w.level <= i < |w.prev|
      ensures IsPrev(t.list, w.prev[i], w.key, i)
    {
      assert IsPrev(s.list, w.prev[i], w.key, i);
    }
  }

  lemma PublishedLevel(l: List, w: Writer)
    requires ListInv(l) && WriterInv(l, w) && w.Linking? && w.filled
    ensures LevelRight(AfterPublish(l, w), w.level)
  {
    var i := w.level;
    var p := w.prev[i];
    var m := AfterPublish(l, w);
    assert IsPrev(l, p, w.key, i) && LevelRight(l, i) && SlotRight(l, p, i);
    var n := l.next[(p, i)];
    assert n.Node? ==> !Between(p, n.key, Node(w.key));
    forall r | OnLevel(m, r, i)
      ensures SlotRight(m, r, i)
    {
      if r == p {
        NoneBetweenSplit(l.levels[i], p, w.key);
      } else if r == Node(w.key) {
        forall k | k in m.levels[i]
          ensures !Between(r, k, n)
        {
          assert k in l.levels[i] ==> !Between(p, k, n);
        }
      } else {
        assert OnLevel(l, r, i) && SlotRight(l, r, i);
        var o := l.next[(r, i)];
        assert p.Node? ==> p.key in l.levels[i] && !Between(r, p.key, o);
        assert r.Node? ==> !Between(p, r.key, Node(w.key));
        assert !Between(r, w.key, o);
      }
    }
  }

  lemma NoneBetweenSplit(keys: set<Key>, p: Ref, k: Key)
    requires NoneBetween(keys, p, Node(k))
    ensures NoneBetween(keys + {k}, p, Node(k))
  {
    forall j | j in keys + {k}
      ensures !Between(p, j, Node(k))
    {
      if j in keys {
        assert !Between(p, j, Node(k));
      }
    }
  }

  lemma PublishKeepsList(l: List, w: Writer)
    requires ListInv(l) && WriterInv(l, w) && w.Linking? && w.filled
    ensures ListInv(AfterPublish(l, w))
    ensures forall i | 0 <= i < MAX_HEIGHT :: l.levels[i] <= AfterPublish(l, w).levels[i]
  {
    var m := AfterPublish(l, w);
    forall i | 0 <= i < MAX_HEIGHT
      ensures LevelRight(m, i)
    {
      if i == w.level {
        PublishedLevel(l, w);
      } else {
        assert LevelRight(l, i);
        forall r | OnLevel(m, r, i)
          ensures SlotRight(m, r, i)
        {
          assert OnLevel(l, r, i) && SlotRight(l, r, i);
        }
      }
    }
    forall i | 0 < i < MAX_HEIGHT
      ensures m.levels[i] <= m.levels[i - 1]
    {
      assert l.levels[i] <= l.levels[i - 1];
    }
  }

  lemma PublishKeepsInv(s: System)
    requires Inv(s) && Enabled(s, Publish)
    ensures Inv(Next(s, Publish))
  {
    var w := s.writer;
    var t := Next(s, Publish);
    PublishKeepsList(s.list, w);
    hide ListInv;
    if t.writer.Linking? {
      forall i | t.writer.level <= i < |w.prev|
        ensures IsPrev(t.list, w.prev[i], w.key, i)
      {
        assert IsPrev(s.list, w.prev[i], w.key, i);
      }
    }
    forall id | id in s.readers
      ensures ReaderInv(t.list, s.readers[id])
    {
      assert ReaderInv(s.list, s.readers[id]);
    }
  }

  lemma LookKeepsReader(l: List, r: Reader)
    requires ListInv(l) && ReaderInv(l, r) && !r.done
    ensures SlotRight(l, r.x, r.level) && ReaderInv(l, Looked(l, r))
  {
    assert LevelRight(l, r.level) && SlotRight(l, r.x, r.level);
    var next := l.next[(r.x, r.level)];
    if r.level == 0 && !Before(next, r.target) {
      forall k | k in r.began
        ensures !Between(r.x, k, next)
      {
        assert k in l.levels[0];
      }
    }
  }

  lemma StepKeepsInv(s: System, step: Step)
    requires Inv(s) && Enabled(s, step)
    ensures Inv(Next(s, step))
  {
    match step
    case BeginInsert(key, prev) => RaiseKeepsInv(s, key, prev);
    case Fill => FillKeepsInv(s);
    case Publish => PublishKeepsInv(s);
    case BeginSearch(reader, target, height) =>
    case Look(reader) =>
      hide ListInv;
      LookKeepsReader(s.list, s.readers[reader]);
  }

  // ---- Runs

  ghost predicate CanRun(s: System, steps: seq<Step>)
    requires Inv(s)
    decreases |steps|
  {
    steps != [] ==>
      && Enabled(s, steps[0])
      && (StepKeepsInv(s, steps[0]); CanRun(Next(s, steps[0]), steps[1..]))
  }

  ghost function Run(s: System, steps: seq<Step>): (r: System)
    requires Inv(s) && CanRun(s, steps)
    ensures Inv(r)
    decreases |steps|
  {
    if steps == [] then s else
    StepKeepsInv(s, steps[0]);
    Run(Next(s, steps[0]), steps[1..])
  }

  // In every reachable state, between any two stores, each level's pointers list its keys in
  // increasing order and each level is a sublist of the one below.
  lemma EveryStateIsSorted(steps: seq<Step>, i: nat)
    requires Inv(EMPTY) && CanRun(EMPTY, steps) && i < MAX_HEIGHT
    ensures var l := Run(EMPTY, steps).list;
            && |l.levels| == MAX_HEIGHT && LevelRight(l, i)
            && (forall k :: k in Chain(l, Head, i) <==> k in l.levels[i])
            && (forall a, b | 0 <= a < b < |Chain(l, Head, i)| :: Chain(l, Head, i)[a] < Chain(l, Head, i)[b])
            && (i > 0 ==> forall k | k in Chain(l, Head, i) :: k in l.levels[i - 1])
  {
    var l := Run(EMPTY, steps).list;
    assert LevelRight(l, i);
    ChainIsSorted(l, Head, i);
  }

  // A search that ran while keys were being inserted misses no key that was present when it
  // began: none lies from the target up to the found node, none between the node before and the
  // target, and the found node is in the list.
  lemma ConcurrentSearch(steps: seq<Step>, id: nat)
    requires Inv(EMPTY) && CanRun(EMPTY, steps)
    requires id in Run(EMPTY, steps).readers && Run(EMPTY, steps).readers[id].done
    ensures var s := Run(EMPTY, steps);
            var r := s.readers[id];
            && (r.next.Null? || (r.next.Node? && r.next.key in s.list.levels[0] && !Before(r.next, r.target)))
            && (r.x.Head? || (r.x.Node? && r.x.key in s.list.levels[0] && Before(r.x, r.target)))
            && forall k | k in r.began :: !Between(r.x, k, r.next)
  {
    var s := Run(EMPTY, steps);
    var r := s.readers[id];
    assert ReaderInv(s.list, r);
    Sublevels(s.list, 0, r.level);
    forall k | k in r.began
      ensures !Between(r.x, k, r.next)
    {
      assert NoneBetween(r.began, r.x, r.next);
    }
  }

  ghost predicate Began(steps: seq<Step>, k: Key) {
    exists j | 0 <= j < |steps| :: steps[j].BeginInsert? && steps[j].key == k
  }

  // Keys only ever join the list, each when its lowest level is published.
  lemma {:induction false} KeysOnlyJoin(s: System, steps: seq<Step>)
    requires Inv(s) && CanRun(s, steps)
    ensures s.list.levels[0] <= Run(s, steps).list.levels[0]
    ensures forall k | k in Run(s, steps).list.levels[0] - s.list.levels[0] ::
              || (s.writer.Linking? && s.writer.key == k)
              || Began(steps, k)
    decreases |steps|
  {
    if steps != [] {
      StepKeepsInv(s, steps[0]);
      var t := Next(s, steps[0]);
      KeysOnlyJoin(t, steps[1..]);
      assert Run(s, steps) == Run(t, steps[1..]);
      forall k | k in Run(s, steps).list.levels[0] - s.list.levels[0]
        ensures || (s.writer.Linking? && s.writer.key == k)
                || Began(steps, k)
      {
        if k in t.list.levels[0] {
        } else if t.writer.Linking? && t.writer.key == k {
        } else {
          assert k in Run(t, steps[1..]).list.levels[0] - t.list.levels[0];
          assert Began(steps[1..], k);
          var j :| 0 <= j < |steps[1..]| && steps[1..][j].BeginInsert? && steps[1..][j].key == k;
          assert steps[j + 1].key == k;
        }
      }
    }
  }

  ghost predicate PresentOrComing(s: System, k: Key) {
    (|s.list.levels| > 0 && k in s.list.levels[0]) || (s.writer.Linking? && s.writer.key == k)
  }

  // An insertion that has returned stays found: every search begun later counts its key.
  lemma {:induction false} InsertLands(s: System, steps: seq<Step>, k: Key)
    requires Inv(s) && CanRun(s, steps)
    requires PresentOrComing(s, k)
    ensures PresentOrComing(Run(s, steps), k)
    decreases |steps|
  {
    if steps != [] {
      StepKeepsInv(s, steps[0]);
      var t := Next(s, steps[0]);
      assert PresentOrComing(t, k);
      InsertLands(t, steps[1..], k);
      assert Run(s, steps) == Run(t, steps[1..]);
    }
  }
}
