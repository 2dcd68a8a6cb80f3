/** How deep an inbound frame may nest, counted without recursing. */
module Nesting {
  import opened JsonValues

  const MAX_FRAME_NESTING := 64

  function Max(a: nat, b: nat): nat {
    if a < b then b else a
  }

  predicate IsContainer(v: Json) {
    v.Arr? || v.Obj?
  }

  // ---- the true depth, by recursion ----

  function Depth(v: Json): nat
    decreases v
  {
    match v
    case Arr(items) => 1 + DeepestItem(items)
    case Obj(members) => 1 + DeepestMember(members)
    case _ => 0
  }

  function DeepestItem(items: seq<Json>): nat
    decreases items
  {
    if items == [] then 0 else Max(Depth(items[0]), DeepestItem(items[1..]))
  }

  function DeepestMember(members: seq<Member>): nat
    decreases members
  {
    if members == [] then 0 else Max(Depth(members[0].value), DeepestMember(members[1..]))
  }

  /** There are k objects and arrays each directly inside the one before, `v`
      being the first. */
  ghost predicate Nests(v: Json, k: nat)
    decreases v
  {
    k == 0
    || match v
       case Arr(items) => k == 1 || exists i | 0 <= i < |items| :: Nests(items[i], k - 1)
       case Obj(members) => k == 1 || exists i | 0 <= i < |members| :: Nests(members[i].value, k - 1)
       case _ => false
  }

  lemma {:induction false} DeepestItemIs(items: seq<Json>, k: nat)
    requires k > 0
    ensures DeepestItem(items) >= k <==> exists i | 0 <= i < |items| :: Depth(items[i]) >= k
  {
    if items != [] {
      DeepestItemIs(items[1..], k);
      if i :| 0 <= i < |items[1..]| && Depth(items[1..][i]) >= k {
        assert items[i + 1] == items[1..][i];
      }
      if i :| 0 < i < |items| && Depth(items[i]) >= k {
        assert items[1..][i - 1] == items[i];
      }
    }
  }

  lemma {:induction false} DeepestMemberIs(members: seq<Member>, k: nat)
    requires k > 0
    ensures DeepestMember(members) >= k <==> exists i | 0 <= i < |members| :: Depth(members[i].value) >= k
  {
    if members != [] {
      DeepestMemberIs(members[1..], k);
      if i :| 0 <= i < |members[1..]| && Depth(members[1..][i].value) >= k {
        assert members[i + 1] == members[1..][i];
      }
      if i :| 0 < i < |members| && Depth(members[i].value) >= k {
        assert members[1..][i - 1] == members[i];
      }
    }
  }

  /** The depth is the length of the longest such chain. */
  lemma {:induction false} DepthIsLongestChain(v: Json, k: nat)
    ensures Depth(v) >= k <==> Nests(v, k)
    decreases v
  {
    if k > 1 {
      match v
      case Arr(items) =>
        forall i | 0 <= i < |items| ensures Depth(items[i]) >= k - 1 <==> Nests(items[i], k - 1) {
          DepthIsLongestChain(items[i], k - 1);
        }
        DeepestItemIs(items, k - 1);
      case Obj(members) =>
        forall i | 0 <= i < |members| ensures Depth(members[i].value) >= k - 1 <==> Nests(members[i].value, k - 1) {
          DepthIsLongestChain(members[i].value, k - 1);
        }
        DeepestMemberIs(members, k - 1);
      case _ =>
    }
  }

  // ---- the loop ----

  datatype Entry = Entry(item: Json, depth: nat)

  function Children(v: Json): seq<Json> {
    match v
    case Arr(items) => items
    case Obj(members) => seq(|members|, i requires 0 <= i < |members| => members[i].value)
    case _ => []
  }

  /** The children worth pushing: scalars add no depth. */
  function Pushed(children: seq<Json>, depth: nat): seq<Entry> {
    if children == [] then []
    else if IsContainer(children[0]) then [Entry(children[0], depth)] + Pushed(children[1..], depth)
    else Pushed(children[1..], depth)
  }

  /** The deepest level anything on the stack reaches. */
  ghost function Reach(stack: seq<Entry>): nat {
    if stack == [] then 0 else Max(Reach(stack[..|stack| - 1]), ReachOf(stack[|stack| - 1]))
  }

  ghost function ReachOf(e: Entry): nat {
    if Depth(e.item) == 0 || e.depth == 0 then 0 else e.depth - 1 + Depth(e.item)
  }

  ghost function Size(v: Json): (n: nat)
    ensures n > 0
    decreases v
  {
    match v
    case Arr(items) => 1 + ItemsSize(items)
    case Obj(members) => 1 + MembersSize(members)
    case _ => 1
  }

  ghost function ItemsSize(items: seq<Json>): nat
    decreases items
  {
    if items == [] then 0 else Size(items[0]) + ItemsSize(items[1..])
  }

  ghost function MembersSize(members: seq<Member>): nat
    decreases members
  {
    if members == [] then 0 else Size(members[0].value) + MembersSize(members[1..])
  }

  ghost function StackSize(stack: seq<Entry>): nat {
    if stack == [] then 0 else StackSize(stack[..|stack| - 1]) + Size(stack[|stack| - 1].item)
  }

  lemma {:induction false} ChildValues(members: seq<Member>)
    ensures DeepestItem(Children(Obj(members))) == DeepestMember(members)
    ensures ItemsSize(Children(Obj(members))) == MembersSize(members)
  {
    if members != [] {
      ChildValues(members[1..]);
      assert Children(Obj(members))[1..] == Children(Obj(members[1..]));
    }
  }

  lemma ChildrenCarryDepth(v: Json)
    ensures IsContainer(v) ==> Depth(v) == 1 + DeepestItem(Children(v)) && Size(v) == 1 + ItemsSize(Children(v))
    ensures !IsContainer(v) ==> Depth(v) == 0
  {
    if v.Obj? {
      ChildValues(v.members);
    }
  }

  lemma {:induction false} StackJoin(a: seq<Entry>, b: seq<Entry>)
    ensures Reach(a + b) == Max(Reach(a), Reach(b)) && StackSize(a + b) == StackSize(a) + StackSize(b)
  {
    if b == [] {
      assert a + b == a;
    } else {
      var front := b[..|b| - 1];
      assert (a + b)[..|a + b| - 1] == a + front;
      StackJoin(a, front);
    }
  }

  lemma {:induction false} PushedReach(children: seq<Json>, depth: nat)
    requires depth > 0
    ensures Reach(Pushed(children, depth)) == if DeepestItem(children) == 0 then 0 else depth - 1 + DeepestItem(children)
    ensures StackSize(Pushed(children, depth)) <= ItemsSize(children)
    ensures forall e | e in Pushed(children, depth) :: e.depth == depth
  {
    if children != [] {
      PushedReach(children[1..], depth);
      ChildrenCarryDepth(children[0]);
      if IsContainer(children[0]) {
        var first := Entry(children[0], depth);
        StackJoin([first], Pushed(children[1..], depth));
        assert [first][..0] == [];
        assert Reach([first]) == ReachOf(first) == depth - 1 + Depth(children[0]);
      }
    }
  }

  ghost predicate Within(stack: seq<Entry>, depth: nat) {
    forall e | e in stack :: 0 < e.depth <= depth
  }

  lemma TopOf(stack: seq<Entry>, depth: nat)
    requires stack != [] && Within(stack, depth)
    ensures var top, rest := stack[|stack| - 1], stack[..|stack| - 1];
            && Reach(stack) == Max(Reach(rest), ReachOf(top)) && StackSize(stack) > StackSize(rest)
            && StackSize(stack) == StackSize(rest) + Size(top.item)
            && Within(rest, depth) && 0 < top.depth <= depth
            && (!IsContainer(top.item) ==> ReachOf(top) == 0)
  {
    ChildrenCarryDepth(stack[|stack| - 1].item);
  }

  /** Replacing a container by its children leaves the deepest level to find. */
  lemma Expanded(rest: seq<Entry>, top: Entry, depth: nat)
    requires IsContainer(top.item) && top.depth > 0 && Within(rest, depth)
    ensures var stack := rest + Pushed(Children(top.item), top.depth + 1);
            && Max(top.depth, Reach(stack)) == Max(Reach(rest), ReachOf(top))
            && StackSize(stack) < StackSize(rest) + Size(top.item)
            && Within(stack, Max(depth, top.depth + 1))
  {
    hide Depth, Size, Reach, StackSize, Pushed, Children, DeepestItem, ItemsSize;
    ChildrenCarryDepth(top.item);
    PushedReach(Children(top.item), top.depth + 1);
    StackJoin(rest, Pushed(Children(top.item), top.depth + 1));
  }

  lemma NothingLeft()
    ensures Reach([]) == 0
  {
  }

  lemma FirstEntry(value: Json)
    ensures Reach([Entry(value, 1)]) == Depth(value) && Within([Entry(value, 1)], 1)
  {
    assert [Entry(value, 1)][..0] == [];
  }

  /** The count stops one level past the limit; up to there it is the depth. */
  method NestingDepth(value: Json) returns (deepest: nat)
    ensures deepest == if Depth(value) <= MAX_FRAME_NESTING then Depth(value) else MAX_FRAME_NESTING + 1
  {
    hide Depth, Reach, ReachOf, StackSize, Pushed, Children, Size, IsContainer, Within;
    deepest := 0;
    var stack := [Entry(value, 1)];
    FirstEntry(value);
    while stack != []
      invariant Max(deepest, Reach(stack)) == Depth(value) && deepest <= MAX_FRAME_NESTING
      invariant Within(stack, deepest + 1)
      decreases StackSize(stack)
    {
      TopOf(stack, deepest + 1);
      var top := stack[|stack| - 1];
      stack := stack[..|stack| - 1];
      if IsContainer(top.item) {
        Expanded(stack, top, deepest + 1);
        deepest := Max(deepest, top.depth);
        if deepest > MAX_FRAME_NESTING {
          return;
        }
        stack := stack + Pushed(Children(top.item), top.depth + 1);
      }
    }
    NothingLeft();
  }

  /** parse_message's check. */
  method AcceptsNesting(value: Json) returns (accepted: bool)
    ensures accepted <==> !Nests(value, MAX_FRAME_NESTING + 1)
  {
    var depth := NestingDepth(value);
    DepthIsLongestChain(value, MAX_FRAME_NESTING + 1);
    accepted := depth <= MAX_FRAME_NESTING;
  }
}
