/**
 Flattened devicetrees (section 5.4 of the Devicetree Specification v0.3): how a tree is laid out
 in bytes, and the search CDeviceTreeBlob does, told on trees.
 */
module DeviceTree {
  import opened Basics

  const FDT_BEGIN_NODE: nat := 1
  const FDT_END_NODE: nat := 2
  const FDT_PROP: nat := 3
  const FDT_NOP: nat := 4
  const DTB_MAX_SIZE: nat := 0x100000
  const SLASH: u8 := 47

  // ---------------------------------------------------------------- layout

  /** What stands between a node's name and its first child, or its end. */
  datatype Items = NoItems | Nop(rest: Items) | Prop(nameoff: nat, data: seq<u8>, rest: Items)

  /** The children, each with the NOPs that follow it. */
  datatype Kids = NoKids | Kid(node: Node, nops: nat, rest: Kids)

  datatype Node = Node(name: seq<u8>, items: Items, kids: Kids)

  function Align(n: nat): (a: nat)
    ensures n <= a < n + 4 && a % 4 == 0
  {
    (n + 3) / 4 * 4
  }

  /** A big-endian word. */
  function Word(n: nat): (w: seq<u8>)
    requires n < U32
    ensures |w| == 4
  {
    [n / 0x1000000, n / 0x10000 % 0x100, n / 0x100 % 0x100, n % 0x100]
  }

  function Nops(n: nat): (s: seq<u8>)
    ensures |s| == 4 * n
  {
    if n == 0 then [] else Word(FDT_NOP) + Nops(n - 1)
  }

  function Padded(s: seq<u8>): (p: seq<u8>)
    ensures |p| == Align(|s|)
  {
    s + Repeat<u8>(0, Align(|s|) - |s|)
  }

  function Name(name: seq<u8>): (s: seq<u8>)
    ensures |s| == Align(|name| + 1)
  {
    Padded(name + [0])
  }

  function PropBytes(nameoff: nat, data: seq<u8>): seq<u8>
    requires |data| < U32 && nameoff < U32
  {
    Word(FDT_PROP) + (Word(|data|) + (Word(nameoff) + Padded(data)))
  }

  function ItemBytes(items: Items): seq<u8>
    requires ItemsOk(items)
  {
    match items
    case NoItems => []
    case Nop(rest) => Word(FDT_NOP) + ItemBytes(rest)
    case Prop(nameoff, data, rest) => PropBytes(nameoff, data) + ItemBytes(rest)
  }

  function KidBytes(kids: Kids): seq<u8>
    requires KidsOk(kids)
    decreases kids, 0
  {
    match kids
    case NoKids => []
    case Kid(node, nops, rest) => NodeBytes(node) + (Nops(nops) + KidBytes(rest))
  }

  function NodeBytes(n: Node): seq<u8>
    requires NodeOk(n)
    decreases n, 1
  {
    Word(FDT_BEGIN_NODE) + (Name(n.name) + (ItemBytes(n.items) + (KidBytes(n.kids) + Word(FDT_END_NODE))))
  }

  predicate ItemsOk(items: Items) {
    match items
    case NoItems => true
    case Nop(rest) => ItemsOk(rest)
    case Prop(nameoff, data, rest) => |data| < U32 && nameoff < U32 && ItemsOk(rest)
  }

  /** Names hold no NUL. */
  predicate NodeOk(n: Node) {
    0 !in n.name && ItemsOk(n.items) && KidsOk(n.kids)
  }

  predicate KidsOk(kids: Kids) {
    kids.NoKids? || (NodeOk(kids.node) && KidsOk(kids.rest))
  }

  /** A tree byte by byte: a root with a property of three bytes whose name stands at offset 258 of the
      strings block and a NOP, and a child "a". */
  lemma LayoutByteByByte()
    ensures var n := Node([], Prop(258, [7, 8, 9], Nop(NoItems)), Kid(Leaf(97), 1, NoKids));
            && NodeOk(n)
            && NodeBytes(n) == [0, 0, 0, 1, 0, 0, 0, 0]
                               + [0, 0, 0, 3, 0, 0, 0, 3, 0, 0, 1, 2, 7, 8, 9, 0] + [0, 0, 0, 4]
                               + [0, 0, 0, 1, 97, 0, 0, 0, 0, 0, 0, 2] + [0, 0, 0, 4]
                               + [0, 0, 0, 2]
  {
    hide NodeBytes, PropBytes, Nops, Word, Name, KidBytes, ItemBytes;
    var kids := Kid(Leaf(97), 1, NoKids);
    LeafBytes();
    ItemsBytes();
    KidsBytes(kids);
    RootBytes(Node([], Prop(258, [7, 8, 9], Nop(NoItems)), kids));
  }

  lemma WordBytes(n: nat)
    requires n < 0x100
    ensures Word(n) == [0, 0, 0, n] && Word(258) == [0, 0, 1, 2]
  {
  }

  lemma LeafBytes()
    ensures NodeBytes(Leaf(97)) == [0, 0, 0, 1, 97, 0, 0, 0, 0, 0, 0, 2]
  {
    hide Word;
    WordBytes(1);
    WordBytes(2);
    assert Name([97]) == [97, 0, 0, 0];
    assert ItemBytes(NoItems) == [] && KidBytes(NoKids) == [];
  }

  lemma ItemsBytes()
    ensures var items := Prop(258, [7, 8, 9], Nop(NoItems));
            ItemsOk(items) && ItemBytes(items) == [0, 0, 0, 3, 0, 0, 0, 3, 0, 0, 1, 2, 7, 8, 9, 0, 0, 0, 0, 4]
  {
    hide Word;
    WordBytes(3);
    WordBytes(4);
    assert Padded([7, 8, 9]) == [7, 8, 9, 0];
    assert ItemBytes(Nop(NoItems)) == [0, 0, 0, 4];
    assert PropBytes(258, [7, 8, 9]) == [0, 0, 0, 3, 0, 0, 0, 3, 0, 0, 1, 2, 7, 8, 9, 0];
  }

  lemma KidsBytes(kids: Kids)
    requires kids == Kid(Leaf(97), 1, NoKids)
    ensures KidsOk(kids) && KidBytes(kids) == NodeBytes(Leaf(97)) + [0, 0, 0, 4]
  {
    hide NodeBytes, Word;
    WordBytes(4);
    assert Nops(0) == [];
    assert Nops(1) == [0, 0, 0, 4];
    assert KidBytes(NoKids) == [];
  }

  lemma RootBytes(n: Node)
    requires NodeOk(n) && n.name == []
    ensures NodeBytes(n) == [0, 0, 0, 1, 0, 0, 0, 0] + ItemBytes(n.items) + KidBytes(n.kids) + [0, 0, 0, 2]
  {
    hide Word, ItemBytes, KidBytes;
    WordBytes(1);
    WordBytes(2);
    assert Name([]) == [0, 0, 0, 0];
  }

  // ---------------------------------------------------------------- the search on trees

  /** A node and the offset of its FDT_BEGIN_NODE. */
  datatype Spot = Spot(pos: nat, node: Node)

  /** The nodes a walk in document order comes to, and whether it gets through. */
  datatype Seen = Seen(spots: seq<Spot>, whole: bool)

  function KidsAt(n: Node, at: nat): nat
    requires NodeOk(n)
  {
    at + 4 + |Name(n.name)| + |ItemBytes(n.items)|
  }

  /** In document order; a NOP between two siblings is where the walk gives up. */
  function Walk(n: Node, at: nat): Seen
    requires NodeOk(n)
    decreases n, 1
  {
    var k := WalkKids(n.kids, KidsAt(n, at));
    Seen([Spot(at, n)] + k.spots, k.whole)
  }

  function WalkKids(kids: Kids, at: nat): Seen
    requires KidsOk(kids)
    decreases kids, 0
  {
    match kids
    case NoKids => Seen([], true)
    case Kid(node, nops, rest) =>
      var w := Walk(node, at);
      if !w.whole || (nops > 0 && rest.Kid?) then Seen(w.spots, false)
      else
        var r := WalkKids(rest, at + |NodeBytes(node)| + 4 * nops);
        Seen(w.spots + r.spots, r.whole)
  }

  /** The first one of that name. */
  function First(spots: seq<Spot>, name: seq<u8>): (f: Option<Spot>)
    ensures f.None? <==> forall i :: 0 <= i < |spots| ==> spots[i].node.name != name
    ensures f.Some? ==> f.value in spots && f.value.node.name == name
  {
    if spots == [] then None
    else if spots[0].node.name == name then Some(spots[0])
    else First(spots[1..], name)
  }

  function Component(path: seq<u8>): (c: seq<u8>)
    ensures c <= path && SLASH !in c
    ensures |c| < |path| ==> path[|c|] == SLASH
  {
    if path == [] || path[0] == SLASH then [] else [path[0]] + Component(path[1..])
  }

  /** Missed: nothing here, go on behind it. Stopped: the whole search is over. */
  datatype Outcome = Found(pos: nat) | Missed | Stopped

  /** The first node named by the path's first component decides: the rest is searched from there. */
  function Search(n: Node, at: nat, path: seq<u8>): Outcome
    requires NodeOk(n)
    decreases |path|, 1
  {
    if path == [] then Found(at) else SearchSeen(Walk(n, at), path)
  }

  function SearchSeen(seen: Seen, path: seq<u8>): Outcome
    requires path != []
    decreases |path|, 0
  {
    var c := Component(path);
    if c == [] then Stopped
    else
      match First(seen.spots, c)
      case None => if seen.whole then Missed else Stopped
      case Some(spot) =>
        if |c| == |path| then Found(spot.pos)
        else if !NodeOk(spot.node) then Stopped
        else
          var r := Search(spot.node, spot.pos, path[|c| + 1..]);
          if r.Found? then r else Stopped
  }

  lemma {:induction false} FirstOfTwo(a: seq<Spot>, b: seq<Spot>, name: seq<u8>)
    ensures First(a + b, name) == if First(a, name).Some? then First(a, name) else First(b, name)
  {
    if a == [] {
      assert a + b == b;
    } else {
      assert (a + b)[1..] == a[1..] + b;
      FirstOfTwo(a[1..], b, name);
    }
  }

  // ---------------------------------------------------------------- what the search finds

  /** The tree's own document order. */
  function Order(n: Node, at: nat): seq<Spot>
    requires NodeOk(n)
    decreases n, 1
  {
    [Spot(at, n)] + OrderKids(n.kids, KidsAt(n, at))
  }

  function OrderKids(kids: Kids, at: nat): seq<Spot>
    requires KidsOk(kids)
    decreases kids, 0
  {
    match kids
    case NoKids => []
    case Kid(node, nops, rest) => Order(node, at) + OrderKids(rest, at + |NodeBytes(node)| + 4 * nops)
  }

  /** No NOP between siblings, anywhere in the tree. */
  predicate Gapless(n: Node)
    decreases n, 1
  {
    GaplessKids(n.kids)
  }

  predicate GaplessKids(kids: Kids)
    decreases kids, 0
  {
    kids.Kid? ==> Gapless(kids.node) && (kids.nops == 0 || kids.rest.NoKids?) && GaplessKids(kids.rest)
  }

  /** The walk gets through the whole tree exactly when no NOP stands between two siblings; in any
      case it sees a front part of the document order. */
  lemma {:induction false} WalkIsOrder(n: Node, at: nat)
    requires NodeOk(n)
    ensures Walk(n, at).whole <==> Gapless(n)
    ensures Walk(n, at).spots <= Order(n, at)
    ensures Gapless(n) ==> Walk(n, at).spots == Order(n, at)
    decreases n, 1
  {
    WalkKidsIsOrder(n.kids, KidsAt(n, at));
  }

  lemma {:induction false} WalkKidsIsOrder(kids: Kids, at: nat)
    requires KidsOk(kids)
    ensures WalkKids(kids, at).whole <==> GaplessKids(kids)
    ensures WalkKids(kids, at).spots <= OrderKids(kids, at)
    ensures GaplessKids(kids) ==> WalkKids(kids, at).spots == OrderKids(kids, at)
    decreases kids, 0
  {
    if kids.Kid? {
      WalkIsOrder(kids.node, at);
      WalkKidsIsOrder(kids.rest, at + |NodeBytes(kids.node)| + 4 * kids.nops);
    }
  }

  /** On a tree without such NOPs: the first node in document order of the first component's name, and
      from it the rest of the path in the same way. */
  lemma SearchIsDocumentOrder(n: Node, at: nat, path: seq<u8>)
    requires NodeOk(n) && Gapless(n) && Component(path) != []
    ensures var c := Component(path);
            match First(Order(n, at), c)
            case None => Search(n, at, path) == Missed
            case Some(spot) =>
              if |c| == |path| then Search(n, at, path) == Found(spot.pos)
              else NodeOk(spot.node) && forall p :: Search(n, at, path) == Found(p) <==> Search(spot.node, spot.pos, path[|c| + 1..]) == Found(p)
  {
    WalkIsOrder(n, at);
    OrderOk(n, at);
  }

  lemma {:induction false} OrderOk(n: Node, at: nat)
    requires NodeOk(n)
    ensures forall s :: s in Order(n, at) ==> NodeOk(s.node)
    decreases n, 1
  {
    OrderKidsOk(n.kids, KidsAt(n, at));
  }

  lemma {:induction false} OrderKidsOk(kids: Kids, at: nat)
    requires KidsOk(kids)
    ensures forall s :: s in OrderKids(kids, at) ==> NodeOk(s.node)
    decreases kids, 0
  {
    if kids.Kid? {
      OrderOk(kids.node, at);
      OrderKidsOk(kids.rest, at + |NodeBytes(kids.node)| + 4 * kids.nops);
    }
  }

  // ---------------------------------------------------------------- the node at a path

  /** The path "c1/c2/..." of a list of names. */
  function Join(names: seq<seq<u8>>): seq<u8> {
    if names == [] then []
    else if |names| == 1 then names[0]
    else names[0] + [47] + Join(names[1..])
  }

  predicate PlainNames(names: seq<seq<u8>>) {
    forall i :: 0 <= i < |names| ==> names[i] != [] && 47 !in names[i]
  }

  /** spots[i] is a child of the node before it, and the only one of its name in that node's subtree. */
  ghost predicate Chain(n: Node, at: nat, spots: seq<Spot>, names: seq<seq<u8>>)
    requires NodeOk(n)
    decreases |spots|
  {
    && |spots| == |names|
    && (spots != [] ==>
          && spots[0] in OrderKids(n.kids, KidsAt(n, at))
          && spots[0].node.name == names[0]
          && (forall s :: s in Order(n, at) && s.node.name == names[0] ==> s == spots[0])
          && NodeOk(spots[0].node) && Gapless(spots[0].node)
          && Chain(spots[0].node, spots[0].pos, spots[1..], names[1..]))
  }

  lemma {:induction false} ComponentOf(c: seq<u8>, rest: seq<u8>)
    requires SLASH !in c && (rest == [] || rest[0] == SLASH)
    ensures Component(c + rest) == c
  {
    if c == [] {
      assert c + rest == rest;
    } else {
      assert (c + rest)[1..] == c[1..] + rest;
      ComponentOf(c[1..], rest);
    }
  }

  /** One component down. */
  lemma GoesDown(n: Node, at: nat, spot: Spot, path: seq<u8>)
    requires NodeOk(n) && Gapless(n) && Component(path) != [] && spot in Order(n, at) && NodeOk(spot.node)
    requires spot.node.name == Component(path)
    requires forall s :: s in Order(n, at) && s.node.name == Component(path) ==> s == spot
    ensures |Component(path)| == |path| ==> Search(n, at, path) == Found(spot.pos)
    ensures |Component(path)| < |path| && Search(spot.node, spot.pos, path[|Component(path)| + 1..]).Found? ==>
              Search(n, at, path) == Search(spot.node, spot.pos, path[|Component(path)| + 1..])
  {
    hide Search, SearchSeen, First, Order, NodeOk, Gapless, Component;
    FirstIs(Order(n, at), Component(path), spot);
    SearchIsDocumentOrder(n, at, path);
  }

  lemma FirstIs(spots: seq<Spot>, name: seq<u8>, spot: Spot)
    requires spot in spots && spot.node.name == name
    requires forall s :: s in spots && s.node.name == name ==> s == spot
    ensures First(spots, name) == Some(spot)
  {
  }

  /** When its names are not repeated elsewhere, the search finds the node at the path. */
  lemma {:induction false} FindsNodeAtPath(n: Node, at: nat, spots: seq<Spot>, names: seq<seq<u8>>)
    requires NodeOk(n) && Gapless(n) && Chain(n, at, spots, names) && PlainNames(names)
    ensures Search(n, at, Join(names)) == Found(if spots == [] then at else spots[|spots| - 1].pos)
    decreases |spots|
  {
    hide SearchSeen, Walk, First, Component, NodeOk;
    if spots != [] {
      var path, c := Join(names), names[0];
      assert spots[0] in Order(n, at);
      if |names| == 1 {
        assert c + [] == c;
        ComponentOf(c, []);
        GoesDown(n, at, spots[0], path);
      } else {
        var rest := [SLASH] + Join(names[1..]);
        assert path == c + rest;
        ComponentOf(c, rest);
        assert path[|c| + 1..] == Join(names[1..]);
        assert PlainNames(names[1..]);
        FindsNodeAtPath(spots[0].node, spots[0].pos, spots[1..], names[1..]);
        GoesDown(n, at, spots[0], path);
      }
    }
  }

  // ---------------------------------------------------------------- where it differs

  function Leaf(c: u8): Node {
    Node([c], NoItems, NoKids)
  }

  /** A NOP between two siblings hides the second one, though it is in the tree. */
  lemma NopHidesSibling()
    ensures var n := Node([], NoItems, Kid(Leaf(97), 1, Kid(Leaf(98), 0, NoKids)));
            && NodeOk(n) && !Gapless(n) && First(Order(n, 0), [98]).Some?
            && Search(n, 0, [98]) == Stopped
  {
    var a, b := Leaf(97), Leaf(98);
    var kids := Kid(a, 1, Kid(b, 0, NoKids));
    var n := Node([], NoItems, kids);
    var s := Spot(KidsAt(n, 0) + |NodeBytes(a)| + 4, b);
    assert OrderKids(Kid(b, 0, NoKids), s.pos) == Order(b, s.pos) + [];
    assert Order(b, s.pos)[0] == s;
    assert s in OrderKids(kids, KidsAt(n, 0));
    assert s in Order(n, 0);
    assert Walk(a, KidsAt(n, 0)).spots == [Spot(KidsAt(n, 0), a)];
    assert WalkKids(kids, KidsAt(n, 0)) == Seen([Spot(KidsAt(n, 0), a)], false);
    assert Component([98]) == [98];
  }

  /** Searching goes on from the node just matched, itself included: "a/a" finds the node "a". */
  lemma RepeatedNameFindsItself(at: nat)
    ensures Search(Leaf(97), at, [97, SLASH, 97]) == Found(at)
  {
    var n := Leaf(97);
    assert Walk(n, at).spots == [Spot(at, n)];
    assert Component([97, SLASH, 97]) == [97] by { ComponentOf([97], [SLASH, 97]); }
    assert Component([97]) == [97];
    assert [97, SLASH, 97][2..] == [97];
    assert Search(n, at, [97]) == Found(at);
  }
}
