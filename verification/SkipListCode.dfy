/** The skip list's methods: searches, and the insertion as a sequence of the single stores that
    concurrent readers may observe one by one. */
module SkipListCode {
  import opened SkipLists

  lemma LaterShrinks(l: List, x: Ref, n: Ref, i: nat)
    requires ListInv(l) && i < MAX_HEIGHT && Before(x, n) && n.Node? && n.key in l.levels[i]
    ensures n.key in l.levels[0] && Later(l, n) < Later(l, x)
  {
    Sublevels(l, 0, i);
    ChainShrinks(l.levels[0], x, n.key);
  }

  ghost function Later(l: List, x: Ref): set<Key>
    requires |l.levels| > 0
  {
    set k | k in l.levels[0] && Before(x, Node(k))
  }

  lemma {:induction false} RunAppend(s: System, steps: seq<Step>, step: Step)
    requires Inv(s) && CanRun(s, steps) && Enabled(Run(s, steps), step)
    ensures CanRun(s, steps + [step]) && Run(s, steps + [step]) == Next(Run(s, steps), step)
    decreases |steps|
  {
    hide Inv, Enabled, Next;
    if steps == [] {
      assert steps + [step] == [step] && [step][1..] == [];
      StepKeepsInv(s, step);
    } else {
      assert (steps + [step])[0] == steps[0] && (steps + [step])[1..] == steps[1..] + [step];
      StepKeepsInv(s, steps[0]);
      RunAppend(Next(s, steps[0]), steps[1..], step);
    }
  }

  lemma HeadIsPrev(l: List, key: Key)
    requires ListInv(l)
    ensures forall i | l.maxHeight <= i < MAX_HEIGHT :: IsPrev(l, Head, key, i)
  {
  }

  lemma RunOne(s: System, step: Step)
    requires Inv(s) && Enabled(s, step)
    ensures Inv(Next(s, step)) && CanRun(s, [step]) && Run(s, [step]) == Next(s, step)
  {
    StepKeepsInv(s, step);
    assert [] + [step] == [step];
    RunAppend(s, [], step);
  }

  // The two stores that link a new node into its current level.
  lemma LinkLevel(before: System, steps: seq<Step>, now: System)
    requires Inv(before) && CanRun(before, steps) && Run(before, steps) == now
    requires Inv(now) && Enabled(now, Fill)
    ensures Enabled(now, Fill) && Inv(Next(now, Fill)) && Enabled(Next(now, Fill), Publish)
    ensures var after := Next(Next(now, Fill), Publish);
            && Inv(after) && CanRun(before, steps + [Fill, Publish]) && Run(before, steps + [Fill, Publish]) == after
    ensures (now.writer.prev[now.writer.level], now.writer.level) in now.list.next
  {
    var w := now.writer;
    var (p, i) := (w.prev[w.level], w.level);
    assert IsPrev(now.list, p, w.key, i) && LevelRight(now.list, i) && SlotRight(now.list, p, i);
    hide ListInv;
    RunAppend(before, steps, Fill);
    StepKeepsInv(now, Fill);
    RunAppend(before, steps + [Fill], Publish);
    StepKeepsInv(Next(now, Fill), Publish);
    assert steps + [Fill] + [Publish] == steps + [Fill, Publish];
  }

  class SkipList {
    var next: Slots
    var maxHeight: nat
    ghost var levels: seq<set<Key>>

    ghost function Abs(): List
      reads this
    {
      List(next, maxHeight, levels)
    }

    ghost predicate Valid()
      reads this
    {
      ListInv(Abs())
    }

    ghost function Keys(): set<Key>
      reads this
      requires Valid()
    {
      levels[0]
    }

    constructor ()
      ensures Valid() && Keys() == {} && Abs() == EMPTY.list
    {
      next, maxHeight, levels := map[], 1, seq(MAX_HEIGHT, _ => {});
      new;
      var i := 0;
      while i < MAX_HEIGHT
        invariant 0 <= i <= MAX_HEIGHT && next == HeadSlots(i)
        invariant maxHeight == 1 && levels == EMPTY.list.levels
      {
        next := next[(Head, i) := Null];
        i := i + 1;
      }
      EmptyInv();
    }

    // FindGreaterOrEqual, filling prev for the levels in use.
    method FindGreaterOrEqual(key: Key) returns (result: Ref, prev: seq<Ref>)
      requires Valid()
      ensures result.Null? || (result.Node? && result.key in Keys() && result.key >= key)
      ensures forall k | k in Keys() :: k < key || !Before(Node(k), result)
      ensures |prev| == MAX_HEIGHT && forall i | 0 <= i < maxHeight :: IsPrev(Abs(), prev[i], key, i)
    {
      prev := seq(MAX_HEIGHT, _ => Head);
      var x := Head;
      var level := maxHeight - 1;
      while true
        invariant 0 <= level < maxHeight && |prev| == MAX_HEIGHT
        invariant OnLevel(Abs(), x, level) && Before(x, Node(key))
        invariant forall i | level < i < maxHeight :: IsPrev(Abs(), prev[i], key, i)
        decreases level, Later(Abs(), x)
      {
        assert LevelRight(Abs(), level) && SlotRight(Abs(), x, level);
        var n := next[(x, level)];
        if n.Node? && n.key < key {
          LaterShrinks(Abs(), x, n, level);
          x := n;
        } else {
          forall k | k in levels[level]
            ensures !Between(x, k, Node(key))
          {
            assert !Between(x, k, n);
          }
          prev := prev[level := x];
          if level == 0 {
            forall k | k in Keys()
              ensures k < key || !Before(Node(k), n)
            {
              assert !Between(x, k, n);
            }
            return n, prev;
          }
          Sublevels(Abs(), level - 1, level);
          level := level - 1;
        }
      }
    }

    method FindLessThan(key: Key) returns (x: Ref)
      requires Valid()
      ensures x.Head? || (x.Node? && x.key in Keys() && x.key < key)
      ensures NoneBetween(Keys(), x, Node(key))
    {
      x := Head;
      var level := maxHeight - 1;
      while true
        invariant 0 <= level < maxHeight
        invariant OnLevel(Abs(), x, level) && Before(x, Node(key))
        decreases level, Later(Abs(), x)
      {
        Sublevels(Abs(), 0, level);
        assert LevelRight(Abs(), level) && SlotRight(Abs(), x, level);
        var n := next[(x, level)];
        if n.Null? || n.key >= key {
          if level == 0 {
            forall k | k in Keys()
              ensures !Between(x, k, Node(key))
            {
              assert !Between(x, k, n);
            }
            return;
          }
          Sublevels(Abs(), level - 1, level);
          level := level - 1;
        } else {
          LaterShrinks(Abs(), x, n, level);
          x := n;
        }
      }
    }

    method FindLast() returns (x: Ref)
      requires Valid()
      ensures x.Head? || (x.Node? && x.key in Keys())
      ensures NoneBetween(Keys(), x, Null)
    {
      x := Head;
      var level := maxHeight - 1;
      while true
        invariant 0 <= level < maxHeight
        invariant OnLevel(Abs(), x, level)
        decreases level, Later(Abs(), x)
      {
        Sublevels(Abs(), 0, level);
        assert LevelRight(Abs(), level) && SlotRight(Abs(), x, level);
        var n := next[(x, level)];
        if n.Null? {
          if level == 0 {
            return;
          }
          Sublevels(Abs(), level - 1, level);
          level := level - 1;
        } else {
          LaterShrinks(Abs(), x, n, level);
          x := n;
        }
      }
    }

    method Contains(key: Key) returns (found: bool)
      requires Valid()
      ensures found == (key in Keys())
    {
      var x, _ := FindGreaterOrEqual(key);
      found := x.Node? && x.key == key;
    }

    // Insert, with the random height as a parameter. The steps it returns are its stores in
    // order: running them one by one from the old memory gives the new one.
    method Insert(key: Key, height: nat) returns (ghost steps: seq<Step>)
      requires Valid() && key !in Keys() && 1 <= height <= MAX_HEIGHT
      modifies this
      ensures Valid() && Keys() == old(Keys()) + {key}
      ensures forall i | 0 <= i < MAX_HEIGHT :: levels[i] == if i < height then old(levels[i]) + {key} else old(levels[i])
      ensures var before := System(old(Abs()), Idle, map[]);
              CanRun(before, steps) && Run(before, steps) == System(Abs(), Idle, map[])
    {
      ghost var before := System(Abs(), Idle, map[]);
      var _, prev := FindGreaterOrEqual(key);
      HeadIsPrev(Abs(), key);
      assert 1 <= maxHeight <= MAX_HEIGHT == |levels|;
      assert Inv(before);
      hide ListInv, IsPrev, Inv, Run, CanRun;
      if height > maxHeight {
        var i := maxHeight;
        while i < height
          invariant maxHeight <= i <= height && |prev| == MAX_HEIGHT
          invariant forall j | 0 <= j < i :: IsPrev(Abs(), prev[j], key, j)
        {
          prev := prev[i := Head];
          i := i + 1;
        }
        maxHeight := height;
      }
      prev := prev[..height];
      ghost var now := Next(before, BeginInsert(key, prev));
      steps := [BeginInsert(key, prev)];
      RunOne(before, BeginInsert(key, prev));
      var i := 0;
      while i < height
        invariant 0 <= i <= height && Abs() == now.list && now.readers == map[]
        invariant CanRun(before, steps) && Run(before, steps) == now && Inv(now)
        invariant now.writer == if i < height then Linking(key, prev, i, false) else Idle
        invariant |levels| == MAX_HEIGHT
        invariant forall j | 0 <= j < MAX_HEIGHT :: levels[j] == if j < i then old(levels[j]) + {key} else old(levels[j])
      {
        LinkLevel(before, steps, now);
        steps, now := steps + [Fill, Publish], Next(Next(now, Fill), Publish);
        next := next[(Node(key), i) := next[(prev[i], i)]];
        next := next[(prev[i], i) := Node(key)];
        levels := levels[i := levels[i] + {key}];
        i := i + 1;
      }
    }
  }

  lemma NothingAfterHead(keys: set<Key>)
    requires NoneBetween(keys, Head, Null)
    ensures keys == {}
  {
    forall k: Key
      ensures k !in keys
    {
      var hint := Between(Head, k, Null);
    }
  }

  class Iterator {
    const list: SkipList
    var node: Ref

    ghost predicate Valid()
      reads this, list
    {
      list.Valid() && (node.Null? || (node.Node? && node.key in list.Keys()))
    }

    constructor (list: SkipList)
      requires list.Valid()
      ensures Valid() && this.list == list && node == Null
    {
      this.list, node := list, Null;
    }

    method Next()
      requires Valid() && node.Node?
      modifies this
      ensures Valid() && Before(old(node), node) && NoneBetween(list.Keys(), old(node), node)
    {
      assert LevelRight(list.Abs(), 0) && SlotRight(list.Abs(), node, 0);
      node := list.next[(node, 0)];
    }

    method Prev()
      requires Valid() && node.Node?
      modifies this
      ensures Valid() && (node.Node? ==> Before(node, old(node)))
      ensures NoneBetween(list.Keys(), if node.Null? then Head else node, old(node))
    {
      node := list.FindLessThan(node.key);
      if node == Head {
        node := Null;
      }
    }

    method Seek(target: Key)
      requires Valid()
      modifies this
      ensures Valid() && (node.Node? ==> node.key >= target)
      ensures forall k | k in list.Keys() && Before(Node(k), node) :: k < target
    {
      var x, _ := list.FindGreaterOrEqual(target);
      node := x;
    }

    method SeekToFirst()
      requires Valid()
      modifies this
      ensures Valid() && NoneBetween(list.Keys(), Head, node)
    {
      assert LevelRight(list.Abs(), 0) && SlotRight(list.Abs(), Head, 0);
      node := list.next[(Head, 0)];
    }

    method SeekToLast()
      requires Valid()
      modifies this
      ensures Valid() && (node.Null? ==> list.Keys() == {}) && NoneBetween(list.Keys(), node, Null)
    {
      node := list.FindLast();
      if node == Head {
        NothingAfterHead(list.Keys());
        node := Null;
      }
    }
  }
}
