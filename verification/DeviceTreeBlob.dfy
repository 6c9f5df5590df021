/** CDeviceTreeBlob over the bytes: the cursor loops do what the search on the tree says. */
module DeviceTreeBlob {
  import opened Basics
  import opened DeviceTree

  ghost predicate Has(b: seq<u8>, at: nat, s: seq<u8>) {
    at + |s| <= |b| && b[at..at + |s|] == s
  }

  /** The big-endian word at an offset. */
  function Token(b: seq<u8>, at: nat): (t: nat)
    requires at + 4 <= |b|
    ensures t < U32
  {
    var b3: int, b2: int, b1: int := b[at], b[at + 1], b[at + 2];
    b3 * 0x1000000 + b2 * 0x10000 + b1 * 0x100 + b[at + 3]
  }

  // ---------------------------------------------------------------- reading the layout

  lemma Split(b: seq<u8>, at: nat, s: seq<u8>, t: seq<u8>)
    requires Has(b, at, s + t)
    ensures Has(b, at, s) && Has(b, at + |s|, t)
  {
    var w := b[at..at + |s + t|];
    assert w[..|s|] == s && w[|s|..] == t;
  }

  lemma TokenIs(b: seq<u8>, at: nat, n: nat)
    requires n < U32 && Has(b, at, Word(n))
    ensures Token(b, at) == n
  {
    var w := b[at..at + 4];
    assert w[0] == b[at] && w[1] == b[at + 1] && w[2] == b[at + 2] && w[3] == b[at + 3];
    BigEndian(n);
  }

  lemma BigEndian(n: nat)
    requires n < U32
    ensures n / 0x1000000 * 0x1000000 + n / 0x10000 % 0x100 * 0x10000 + n / 0x100 % 0x100 * 0x100 + n % 0x100 == n
  {
    var a, b := n / 0x100, n / 0x10000;
    assert a == b * 0x100 + a % 0x100;
    assert b == n / 0x1000000 * 0x100 + b % 0x100;
  }

  lemma StartsWithWord(b: seq<u8>, at: nat, n: nat, t: seq<u8>)
    requires n < U32 && Has(b, at, Word(n) + t)
    ensures at + 4 <= |b| && Token(b, at) == n && Has(b, at + 4, t)
  {
    Split(b, at, Word(n), t);
    TokenIs(b, at, n);
  }

  lemma NoNops(s: seq<u8>)
    ensures Nops(0) + s == s
  {
  }

  lemma NopsThen(b: seq<u8>, at: nat, n: nat, t: seq<u8>)
    requires n > 0 && Has(b, at, Nops(n) + t)
    ensures at + 4 <= |b| && Token(b, at) == FDT_NOP && Has(b, at + 4, Nops(n - 1) + t)
  {
    assert Nops(n) + t == Word(FDT_NOP) + (Nops(n - 1) + t);
    StartsWithWord(b, at, FDT_NOP, Nops(n - 1) + t);
  }

  function KidsEnd(kids: Kids): seq<u8>
    requires KidsOk(kids)
  {
    KidBytes(kids) + Word(FDT_END_NODE)
  }

  function ItemsEnd(items: Items, kids: Kids): seq<u8>
    requires ItemsOk(items) && KidsOk(kids)
  {
    ItemBytes(items) + KidsEnd(kids)
  }

  lemma NodeParts(b: seq<u8>, at: nat, n: Node)
    requires NodeOk(n) && Has(b, at, NodeBytes(n))
    ensures at + 4 <= |b| && Token(b, at) == FDT_BEGIN_NODE
    ensures Has(b, at + 4, Name(n.name)) && Has(b, at + 4 + |Name(n.name)|, ItemsEnd(n.items, n.kids))
    ensures at + |NodeBytes(n)| == KidsAt(n, at) + |KidsEnd(n.kids)|
  {
    StartsWithWord(b, at, FDT_BEGIN_NODE, Name(n.name) + ItemsEnd(n.items, n.kids));
    Split(b, at + 4, Name(n.name), ItemsEnd(n.items, n.kids));
  }

  lemma KidsParts(b: seq<u8>, at: nat, kids: Kids)
    requires KidsOk(kids) && Has(b, at, KidsEnd(kids))
    ensures at + 4 <= |b| && Token(b, at) == (if kids.Kid? then FDT_BEGIN_NODE else FDT_END_NODE)
    ensures kids.Kid? ==> NodeOk(kids.node) && KidsOk(kids.rest)
    ensures kids.Kid? ==>
              && Has(b, at, NodeBytes(kids.node))
              && Has(b, at + |NodeBytes(kids.node)|, Nops(kids.nops) + KidsEnd(kids.rest))
    ensures kids.Kid? ==> |KidsEnd(kids)| == |NodeBytes(kids.node)| + 4 * kids.nops + |KidsEnd(kids.rest)|
  {
    if kids.Kid? {
      var node, tail := NodeBytes(kids.node), Nops(kids.nops) + KidsEnd(kids.rest);
      assert KidsEnd(kids) == node + tail;
      Split(b, at, node, tail);
      NodeParts(b, at, kids.node);
    } else {
      assert KidsEnd(kids) == Word(FDT_END_NODE);
      TokenIs(b, at, FDT_END_NODE);
    }
  }

  lemma ItemsParts(b: seq<u8>, at: nat, items: Items, kids: Kids)
    requires ItemsOk(items) && KidsOk(kids) && Has(b, at, ItemsEnd(items, kids))
    ensures at + 4 <= |b|
    ensures items.NoItems? ==> Token(b, at) in {FDT_BEGIN_NODE, FDT_END_NODE} && Has(b, at, KidsEnd(kids))
    ensures items.Nop? ==> Token(b, at) == FDT_NOP && Has(b, at + 4, ItemsEnd(items.rest, kids))
    ensures items.Prop? ==>
              && at + 12 + |items.data| <= |b| && Token(b, at) == FDT_PROP
              && Token(b, at + 4) == |items.data| && Token(b, at + 8) == items.nameoff
              && Has(b, at + 12, items.data) && Has(b, at + 12 + Align(|items.data|), ItemsEnd(items.rest, kids))
  {
    hide Has, ItemsEnd, KidsEnd, PropBytes, Token;
    ItemsUnfold(items, kids);
    match items
    case NoItems => KidsParts(b, at, kids);
    case Nop(rest) => StartsWithWord(b, at, FDT_NOP, ItemsEnd(rest, kids));
    case Prop(nameoff, data, rest) => PropThenParts(b, at, nameoff, data, ItemsEnd(rest, kids));
  }

  lemma ItemLength(items: Items)
    requires ItemsOk(items)
    ensures |ItemBytes(items)| ==
            if items.NoItems? then 0
            else if items.Nop? then 4 + |ItemBytes(items.rest)|
            else 12 + Align(|items.data|) + |ItemBytes(items.rest)|
  {
  }

  lemma ItemsUnfold(items: Items, kids: Kids)
    requires ItemsOk(items) && KidsOk(kids)
    ensures ItemsEnd(items, kids) ==
            if items.NoItems? then KidsEnd(kids)
            else if items.Nop? then Word(FDT_NOP) + ItemsEnd(items.rest, kids)
            else PropBytes(items.nameoff, items.data) + ItemsEnd(items.rest, kids)
  {
    hide KidsEnd, PropBytes, Word;
  }

  lemma PropThenParts(b: seq<u8>, at: nat, nameoff: nat, data: seq<u8>, end: seq<u8>)
    requires |data| < U32 && nameoff < U32 && Has(b, at, PropBytes(nameoff, data) + end)
    ensures at + 12 + |data| <= |b| && Token(b, at) == FDT_PROP
    ensures Token(b, at + 4) == |data| && Token(b, at + 8) == nameoff
    ensures Has(b, at + 12, data) && Has(b, at + 12 + Align(|data|), end)
  {
    var pad := Padded(data);
    Split(b, at, PropBytes(nameoff, data), end);
    StartsWithWord(b, at, FDT_PROP, Word(|data|) + (Word(nameoff) + pad));
    StartsWithWord(b, at + 4, |data|, Word(nameoff) + pad);
    StartsWithWord(b, at + 8, nameoff, pad);
    Split(b, at + 12, data, Repeat<u8>(0, Align(|data|) - |data|));
  }

  // ---------------------------------------------------------------- the search, one node at a time

  lemma HereOrBelow(n: Node, at: nat, path: seq<u8>)
    requires NodeOk(n) && Component(path) != []
    ensures var c := Component(path);
            if n.name != c then Search(n, at, path) == SearchSeen(WalkKids(n.kids, KidsAt(n, at)), path)
            else if |c| == |path| then Search(n, at, path) == Found(at)
            else Search(n, at, path) == (var r := Search(n, at, path[|c| + 1..]); if r.Found? then r else Stopped)
  {
    FirstOfTwo([Spot(at, n)], WalkKids(n.kids, KidsAt(n, at)).spots, Component(path));
  }

  /** Where the siblings after a child that missed stand. */
  lemma ThenTheRest(kids: Kids, at: nat, path: seq<u8>)
    requires KidsOk(kids) && kids.Kid? && Component(path) != []
    ensures var all, r := SearchSeen(WalkKids(kids, at), path), Search(kids.node, at, path);
            if r != Missed then all == r
            else if kids.nops > 0 && kids.rest.Kid? then all == Stopped
            else all == SearchSeen(WalkKids(kids.rest, at + |NodeBytes(kids.node)| + 4 * kids.nops), path)
  {
    var w, r := Walk(kids.node, at), WalkKids(kids.rest, at + |NodeBytes(kids.node)| + 4 * kids.nops);
    assert path != [];
    assert Search(kids.node, at, path) == SearchSeen(w, path);
    var cut := !w.whole || (kids.nops > 0 && kids.rest.Kid?);
    assert WalkKids(kids, at) == if cut then Seen(w.spots, false) else Seen(w.spots + r.spots, r.whole);
    hide Walk, WalkKids, NodeBytes, Search;
    if cut { CutShort(w, path); } else { OneThenOther(w, r, path); }
  }

  lemma CutShort(w: Seen, path: seq<u8>)
    requires Component(path) != []
    ensures SearchSeen(Seen(w.spots, false), path) == (var r := SearchSeen(w, path); if r == Missed then Stopped else r)
    ensures SearchSeen(w, path) == Missed ==> w.whole
  {
  }

  lemma OneThenOther(w: Seen, r: Seen, path: seq<u8>)
    requires Component(path) != [] && w.whole
    ensures SearchSeen(Seen(w.spots + r.spots, r.whole), path) ==
            (var f := SearchSeen(w, path); if f == Missed then SearchSeen(r, path) else f)
  {
    FirstOfTwo(w.spots, r.spots, Component(path));
  }

  lemma NoSearch(n: Node, at: nat, path: seq<u8>)
    requires NodeOk(n) && Component(path) == []
    ensures Search(n, at, path) == if path == [] then Found(at) else Stopped
  {
  }

  method StrLen(b: seq<u8>, at: nat, ghost name: seq<u8>) returns (len: nat)
    requires Has(b, at, name + [0]) && 0 !in name
    ensures len == |name| && b[at..at + len] == name
  {
    ghost var w := b[at..at + |name| + 1];
    assert w == name + [0];
    len := 0;
    while b[at + len] != 0
      invariant len <= |name|
      decreases |name| - len
    {
      assert w[len] == b[at + len];
      len := len + 1;
    }
    assert w[len] == 0;
    assert b[at..at + len] == w[..len];
  }

  class CDeviceTreeBlob {
    const ftd: seq<u8>     // empty when the constructor refused the buffer
    const wide: bool       // whether size_t and addresses have 64 bits, or 32

    /** No buffer, a wrong magic number or version, or a size out of bounds is refused. */
    constructor (source: Option<seq<u8>>, wide: bool)
      requires source.Some? ==> |source.value| >= 40 && Token(source.value, 4) <= |source.value|
      ensures this.wide == wide && |ftd| <= 0x100000
      ensures source.None? ==> ftd == []
      ensures source.Some? ==>
                var b := source.value;
                ftd == if Token(b, 0) == 0xD00DFEED && Token(b, 24) == 16 && 40 <= Token(b, 4) <= 0x100000
                       then b[..Token(b, 4)] else []
    {
      var copy := [];
      if source.Some? && Token(source.value, 0) == 0xD00DFEED && Token(source.value, 24) == 16 {
        var totalSize := Token(source.value, 4);
        if !(totalSize < 40 || totalSize > DTB_MAX_SIZE) {
          copy := source.value[..totalSize];
        }
      }
      ftd := copy;
      this.wide := wide;
    }

    /** `path` is what is left of the path, `start` the node's offset, `want` whether the caller asks for
        the next node; `lead` NOPs and the node `n` stand there. */
    method FindNodeInternal(path: seq<u8>, start: nat, want: bool, ghost lead: nat, ghost n: Node)
      returns (found: Option<nat>, next: Option<nat>)
      requires NodeOk(n) && Has(ftd, start, Nops(lead) + NodeBytes(n))
      ensures var r := Search(n, start + 4 * lead, path);
              && found == (if r.Found? then Some(r.pos) else None)
              && next == (if r == Missed && want then Some(start + 4 * lead + |NodeBytes(n)|) else None)
      decreases |path|, n
    {
      hide Search, SearchSeen, Walk, WalkKids, NodeBytes, KidBytes, ItemBytes, Token, KidsEnd, ItemsEnd, Nops, Component, Has;
      ghost var at := start + 4 * lead;
      var p := SkipNops(start, lead, NodeBytes(n), n);
      NodeParts(ftd, p, n);
      var c := Component(path);
      if c == [] { NoSearch(n, p, path); }
      if path == [] { return Some(p), None; }
      if c == [] { return None, None; }
      HereOrBelow(n, p, path);
      NameThere(ftd, p + 4, n.name);
      var len := StrLen(ftd, p + 4, n.name);
      if ftd[p + 4..p + 4 + len] == c {
        if |c| < |path| {
          NoNops(NodeBytes(n));
          var r, _ := FindNodeInternal(path[|c| + 1..], p, false, 0, n);
          return r, None;
        }
        return Some(p), None;
      }
      var q := SkipItems(p + 4 + Align(len + 1), n.items, n.kids);
      found, next := FindInKids(path, q, want, n.kids, n);
    }

    method SkipNops(start: nat, ghost lead: nat, ghost tail: seq<u8>, ghost n: Node) returns (p: nat)
      requires NodeOk(n) && tail == NodeBytes(n) && Has(ftd, start, Nops(lead) + tail)
      ensures p == start + 4 * lead && Has(ftd, p, tail)
    {
      hide NodeBytes;
      p := start;
      ghost var left := lead;
      NextToken(ftd, p, left, n);
      while Token(ftd, p) == FDT_NOP
        invariant p + 4 <= |ftd| && p + 4 * left == start + 4 * lead
        invariant Has(ftd, p, Nops(left) + tail)
        invariant Token(ftd, p) == FDT_NOP <==> left > 0
        decreases left
      {
        NopsThen(ftd, p, left, tail);
        p := p + 4;
        left := left - 1;
        NextToken(ftd, p, left, n);
      }
      assert Nops(0) + tail == tail;
    }

    /** Over the properties and NOPs of a node. */
    method SkipItems(start: nat, ghost items: Items, ghost kids: Kids) returns (p: nat)
      requires ItemsOk(items) && KidsOk(kids) && Has(ftd, start, ItemsEnd(items, kids))
      ensures p == start + |ItemBytes(items)| && Has(ftd, p, KidsEnd(kids))
    {
      hide Has, ItemsEnd, KidsEnd, Token, PropBytes, ItemBytes;
      p := start;
      ghost var rest := items;
      ItemsParts(ftd, p, rest, kids);
      while Token(ftd, p) == FDT_NOP || Token(ftd, p) == FDT_PROP
        invariant p + 4 <= |ftd| && ItemsOk(rest) && p + |ItemBytes(rest)| == start + |ItemBytes(items)|
        invariant Has(ftd, p, ItemsEnd(rest, kids))
        invariant rest.NoItems? <==> Token(ftd, p) in {FDT_BEGIN_NODE, FDT_END_NODE}
        decreases rest
      {
        ItemsParts(ftd, p, rest, kids);
        ItemLength(rest);
        if Token(ftd, p) == FDT_NOP {
          p := p + 4;
        } else {
          p := p + 12 + Align(Token(ftd, p + 4));
        }
        rest := rest.rest;
        ItemsParts(ftd, p, rest, kids);
      }
      ItemsParts(ftd, p, rest, kids);
      ItemLength(rest);
    }

    /** The loop over a node's children. */
    method FindInKids(path: seq<u8>, start: nat, want: bool, ghost kids: Kids, ghost n: Node)
      returns (found: Option<nat>, next: Option<nat>)
      requires KidsOk(kids) && Has(ftd, start, KidsEnd(kids)) && Component(path) != [] && kids == n.kids
      ensures var r := SearchSeen(WalkKids(kids, start), path);
              && found == (if r.Found? then Some(r.pos) else None)
              && next == (if r == Missed && want then Some(start + |KidsEnd(kids)|) else None)
      decreases |path|, n, 0
    {
      hide Search, SearchSeen, Walk, WalkKids, NodeBytes, KidBytes, Has, Token, KidsEnd, Nops, Component, KidsOk, NodeOk;
      ghost var target := SearchSeen(WalkKids(kids, start), path);
      ghost var ks, gap: nat := kids, 0;
      var p: nat := start;
      KidsParts(ftd, p, ks);
      NoNops(KidsEnd(ks));
      while Token(ftd, p) == FDT_BEGIN_NODE
        invariant p + 4 <= |ftd| && KidsOk(ks) && (ks == kids || ks < kids)
        invariant Has(ftd, p, Nops(gap) + KidsEnd(ks)) && p + 4 * gap + |KidsEnd(ks)| == start + |KidsEnd(kids)|
        invariant Token(ftd, p) == (if gap > 0 then FDT_NOP else if ks.Kid? then FDT_BEGIN_NODE else FDT_END_NODE)
        invariant target == if gap > 0 && ks.Kid? then Stopped else SearchSeen(WalkKids(ks, p + 4 * gap), path)
        decreases ks
      {
        NoNops(KidsEnd(ks));
        KidsParts(ftd, p, ks);
        ThenTheRest(ks, p, path);
        NoNops(NodeBytes(ks.node));
        var f, nx := FindNodeInternal(path, p, true, 0, ks.node);
        if f.Some? { return f, None; }
        if nx.None? { return None, None; }
        p := nx.value;
        gap, ks := ks.nops, ks.rest;
        AfterKid(ftd, p, gap, ks);
      }
      p := SkipGap(p, gap, ks);
      if Token(ftd, p) == FDT_END_NODE {
        NothingSeen(p, path);
        return None, if want then Some(p + 4) else None;
      }
      return None, None;
    }

    method SkipGap(start: nat, ghost gap: nat, ghost ks: Kids) returns (p: nat)
      requires KidsOk(ks) && Has(ftd, start, Nops(gap) + KidsEnd(ks))
      ensures p == start + 4 * gap && p + 4 <= |ftd| && Token(ftd, p) == (if ks.Kid? then FDT_BEGIN_NODE else FDT_END_NODE)
    {
      hide NodeBytes, KidBytes;
      p := start;
      ghost var left := gap;
      AfterKid(ftd, p, left, ks);
      while Token(ftd, p) == FDT_NOP
        invariant p + 4 <= |ftd| && p + 4 * left == start + 4 * gap
        invariant Has(ftd, p, Nops(left) + KidsEnd(ks))
        invariant Token(ftd, p) == if left > 0 then FDT_NOP else if ks.Kid? then FDT_BEGIN_NODE else FDT_END_NODE
        decreases left
      {
        NopsThen(ftd, p, left, KidsEnd(ks));
        p := p + 4;
        left := left - 1;
        AfterKid(ftd, p, left, ks);
      }
    }

    /** The public search: from the root for an absolute path, or inside a node found before. */
    method FindNode(path: seq<u8>, parent: Option<nat>, ghost lead: nat, ghost n: Node) returns (found: Option<nat>)
      requires |ftd| >= 40 ==>
                 NodeOk(n) && Has(ftd, if parent.Some? then parent.value else Token(ftd, 8), Nops(lead) + NodeBytes(n))
      requires ftd == [] || |ftd| >= 40
      ensures ftd == [] || (parent.None? && (path == [] || path[0] != 47)) ==> found == None
      ensures ftd != [] && (parent.None? ==> path != [] && path[0] == 47) ==>
                var start := if parent.Some? then parent.value else Token(ftd, 8);
                var r := Search(n, start + 4 * lead, if parent.Some? then path else path[1..]);
                found == if r.Found? then Some(r.pos) else None
    {
      hide Search, NodeBytes, Nops, Token;
      if ftd == [] { return None; }
      var start, rest := 0, path;
      if parent.None? {
        start := Token(ftd, 8);
        if path == [] || path[0] != SLASH { return None; }
        rest := path[1..];
      } else {
        start := parent.value;
      }
      var node, _ := FindNodeInternal(rest, start, false, lead, n);
      return node;
    }

    /** The first property of that name among the node's own ones. */
    method FindProperty(node: nat, name: seq<u8>, ghost n: Node) returns (found: Option<nat>)
      requires |ftd| >= 40 && NodeOk(n) && Has(ftd, node, NodeBytes(n)) && NamesOk(ftd, Token(ftd, 12), n.items)
      ensures found == FirstNamed(ftd, n.items, node + 4 + |Name(n.name)|, name)
    {
      hide NodeBytes, ItemsEnd, KidsEnd, Has, ItemBytes, Token, NamesOk, FirstNamed, CString;
      NodeParts(ftd, node, n);
      NameThere(ftd, node + 4, n.name);
      var len := StrLen(ftd, node + 4, n.name);
      var p: nat := node + 4 + Align(len + 1);
      ghost var rest := n.items;
      ItemsParts(ftd, p, rest, n.kids);
      while Token(ftd, p) == FDT_PROP || Token(ftd, p) == FDT_NOP
        invariant p + 4 <= |ftd| && ItemsOk(rest) && Has(ftd, p, ItemsEnd(rest, n.kids)) && NamesOk(ftd, Token(ftd, 12), rest)
        invariant FirstNamed(ftd, n.items, node + 4 + |Name(n.name)|, name) == FirstNamed(ftd, rest, p, name)
        invariant rest.NoItems? <==> Token(ftd, p) in {FDT_BEGIN_NODE, FDT_END_NODE}
        decreases rest
      {
        ItemsParts(ftd, p, rest, n.kids);
        FirstNamedNext(ftd, rest, p, name);
        if Token(ftd, p) == FDT_NOP {
          p := p + 4;
        } else {
          var propName := CString(ftd, Token(ftd, 12) + Token(ftd, p + 8));
          if propName == name { return Some(p); }
          p := p + 12 + Align(Token(ftd, p + 4));
        }
        rest := rest.rest;
        ItemsParts(ftd, p, rest, n.kids);
      }
      ItemsParts(ftd, p, rest, n.kids);
      FirstNamedNext(ftd, rest, p, name);
      return None;
    }

    /** The index-th big-endian word of a property's value, 0 when the value is too short. With 32-bit
        addresses the index counts modulo 2^30, and one index in each round leads to the word before the
        value, which is the offset of the name. */
    method GetPropertyValueWord(property: nat, index: nat, ghost nameoff: nat, ghost data: seq<u8>) returns (w: nat)
      requires |data| < U32 && nameoff < U32 && Has(ftd, property, PropBytes(nameoff, data)) && |ftd| <= DTB_MAX_SIZE
      requires index < U32 && (wide ==> index != U32 - 1)
      ensures wide ==> w == if |data| < 4 * (index + 1) then 0 else Token(data, 4 * index)
      ensures !wide ==>
                var k := index % ROUND;
                w == if k == ROUND - 1 then nameoff else if |data| < 4 * (k + 1) then 0 else Token(data, 4 * k)
    {
      hide Has, Token, Guard, PropBytes;
      assert PropBytes(nameoff, data) + [] == PropBytes(nameoff, data);
      PropThenParts(ftd, property, nameoff, data, []);
      if Refused(Token(ftd, property + 4), index, wide) { GuardIs(index, wide); return 0; }
      GuardIs(index, wide);
      if wide {
        WordInside(ftd, property + 12, data, index);
        return Token(ftd, property + 12 + 4 * index);
      }
      NarrowAddress(property, index);
      if index % ROUND != ROUND - 1 { WordInside(ftd, property + 12, data, index % ROUND); }
      return Token(ftd, (property + 12 + 4 * index) % U32);
    }
  }

  /** So many words has a 32-bit address space. */
  const ROUND: nat := 0x4000_0000

  /** The length a value needs for that word: the index is counted up in 32 bits, and multiplied in the
      width of size_t. */
  function Guard(index: nat, wide: bool): nat {
    if wide then (index + 1) % U32 * 4 else (index + 1) % U32 * 4 % U32
  }

  predicate Refused(len: nat, index: nat, wide: bool) { len < Guard(index, wide) }

  predicate TooShort(len: nat, index: nat) { len < 4 * (index + 1) }

  /** The length test is right for values of every length exactly for all indices but the largest where
      size_t has 64 bits, and exactly below 0x3fffffff where it has 32. */
  lemma GuardProtects(index: nat, wide: bool)
    requires index < U32
    ensures (forall len: nat :: len < U32 ==> (Refused(len, index, wide) <==> TooShort(len, index)))
            <==> if wide then index != U32 - 1 else index < ROUND - 1
  {
    GuardIs(index, wide);
    hide Guard;
    if index == U32 - 1 || (!wide && index >= ROUND - 1) {
      assert !Refused(U32 - 1, index, wide) && TooShort(U32 - 1, index);
    }
  }

  lemma GuardIs(index: nat, wide: bool)
    requires index < U32
    ensures Guard(index, wide) ==
            if wide then (if index == U32 - 1 then 0 else 4 * (index + 1))
            else (if index % ROUND == ROUND - 1 then 0 else 4 * (index % ROUND + 1))
    ensures Guard(index, wide) < 4 * U32 && (!wide ==> Guard(index, wide) < U32)
  {
    var q, k := index / ROUND, index % ROUND;
    assert index == ROUND * q + k && (q == 0 || q == 1 || q == 2 || q == 3);
  }

  lemma NarrowAddress(property: nat, index: nat)
    requires index < U32 && property + 12 + 4 < U32
    ensures var k, at := index % ROUND, (property + 12 + 4 * index) % U32;
            && (k == ROUND - 1 ==> at == property + 8)
            && (property + 12 + 4 * k < U32 ==> at == property + 12 + 4 * k)
  {
    var q, k := index / ROUND, index % ROUND;
    assert index == ROUND * q + k && (q == 0 || q == 1 || q == 2 || q == 3);
  }

  lemma WordInside(b: seq<u8>, at: nat, data: seq<u8>, k: nat)
    requires Has(b, at, data) && 4 * (k + 1) <= |data|
    ensures Token(b, at + 4 * k) == Token(data, 4 * k)
  {
    var value := b[at..at + |data|];
    assert value[4 * k] == b[at + 4 * k] && value[4 * k + 1] == b[at + 4 * k + 1];
    assert value[4 * k + 2] == b[at + 4 * k + 2] && value[4 * k + 3] == b[at + 4 * k + 3];
  }

  /** A property's offset and the offset of its name. */
  datatype PropAt = PropAt(pos: nat, nameoff: nat)

  function Props(items: Items, at: nat): seq<PropAt> {
    match items
    case NoItems => []
    case Nop(rest) => Props(rest, at + 4)
    case Prop(nameoff, data, rest) => [PropAt(at, nameoff)] + Props(rest, at + 12 + Align(|data|))
  }

  function FirstNamed(b: seq<u8>, items: Items, at: nat, name: seq<u8>): Option<nat>
    requires |b| >= 16 && NamesOk(b, Token(b, 12), items)
  {
    match items
    case NoItems => None
    case Nop(rest) => FirstNamed(b, rest, at + 4, name)
    case Prop(nameoff, data, rest) =>
      if CString(b, Token(b, 12) + nameoff) == name then Some(at)
      else FirstNamed(b, rest, at + 12 + Align(|data|), name)
  }

  lemma FirstNamedNext(b: seq<u8>, items: Items, at: nat, name: seq<u8>)
    requires |b| >= 16 && NamesOk(b, Token(b, 12), items)
    ensures items.NoItems? ==> FirstNamed(b, items, at, name) == None
    ensures items.Nop? ==> NamesOk(b, Token(b, 12), items.rest)
                           && FirstNamed(b, items, at, name) == FirstNamed(b, items.rest, at + 4, name)
    ensures items.Prop? ==>
              && Token(b, 12) + items.nameoff < |b| && 0 in b[Token(b, 12) + items.nameoff..] && NamesOk(b, Token(b, 12), items.rest)
              && FirstNamed(b, items, at, name) ==
                 if CString(b, Token(b, 12) + items.nameoff) == name then Some(at)
                 else FirstNamed(b, items.rest, at + 12 + Align(|items.data|), name)
  {
    hide Token, CString;
  }

  /** None when no property has the name, otherwise the first one that has. */
  ghost predicate IsFirst(b: seq<u8>, ps: seq<PropAt>, name: seq<u8>, f: Option<nat>) {
    if f.None? then forall i :: 0 <= i < |ps| ==> !Named(b, ps[i], name)
    else exists i :: 0 <= i < |ps| && ps[i].pos == f.value && Named(b, ps[i], name)
                     && forall j :: 0 <= j < i ==> !Named(b, ps[j], name)
  }

  lemma IsFirstBehind(b: seq<u8>, here: PropAt, tail: seq<PropAt>, name: seq<u8>, f: Option<nat>)
    requires !Named(b, here, name) && IsFirst(b, tail, name, f)
    ensures IsFirst(b, [here] + tail, name, f)
  {
    hide Named;
    var ps := [here] + tail;
    if f.Some? {
      var i :| 0 <= i < |tail| && tail[i].pos == f.value && Named(b, tail[i], name)
               && forall j :: 0 <= j < i ==> !Named(b, tail[j], name);
      assert ps[i + 1] == tail[i];
      forall j | 0 <= j < i + 1 ensures !Named(b, ps[j], name) {
        if j > 0 { assert ps[j] == tail[j - 1]; }
      }
    }
  }

  /** A property is found if and only if the node itself has one of that name, and then it is the
      first such one. */
  lemma {:induction false} FoundIffThere(b: seq<u8>, items: Items, at: nat, name: seq<u8>)
    requires |b| >= 16 && NamesOk(b, Token(b, 12), items)
    ensures IsFirst(b, Props(items, at), name, FirstNamed(b, items, at, name))
  {
    hide IsFirst, Token, CString, Named;
    FirstNamedNext(b, items, at, name);
    match items
    case NoItems => assert IsFirst(b, [], name, None) by { NoneOfNone(b, name); }
    case Nop(rest) => FoundIffThere(b, rest, at + 4, name);
    case Prop(nameoff, data, rest) =>
      var here, tail := PropAt(at, nameoff), Props(rest, at + 12 + Align(|data|));
      NamedIs(b, here, name);
      if CString(b, Token(b, 12) + nameoff) == name {
        FirstIsIt(b, here, tail, name);
      } else {
        FoundIffThere(b, rest, at + 12 + Align(|data|), name);
        IsFirstBehind(b, here, tail, name, FirstNamed(b, items, at, name));
      }
  }

  lemma NoneOfNone(b: seq<u8>, name: seq<u8>)
    ensures IsFirst(b, [], name, None)
  {
  }

  lemma FirstIsIt(b: seq<u8>, here: PropAt, tail: seq<PropAt>, name: seq<u8>)
    requires Named(b, here, name)
    ensures IsFirst(b, [here] + tail, name, Some(here.pos))
  {
    hide Named;
    assert ([here] + tail)[0] == here;
  }

  /** The NUL-terminated string at an offset. */
  function CString(b: seq<u8>, at: nat): (s: seq<u8>)
    requires at < |b| && 0 in b[at..]
    ensures Terminated(b, at, s)
    decreases |b| - at
  {
    if b[at] == 0 then [] else [b[at]] + CString(b, at + 1)
  }

  /** From `at` on stand the bytes of `s`, none of them NUL, and behind them a NUL. */
  predicate Terminated(b: seq<u8>, at: nat, s: seq<u8>) {
    at + |s| < |b| && b[at..at + |s|] == s && 0 !in s && b[at + |s|] == 0
  }

  lemma OneTerminated(b: seq<u8>, at: nat, s: seq<u8>, t: seq<u8>)
    requires Terminated(b, at, s) && Terminated(b, at, t)
    ensures s == t
  {
    assert forall i :: 0 <= i < |s| ==> s[i] in s && b[at..at + |s|][i] == b[at + i] != 0;
    assert forall i :: 0 <= i < |t| ==> t[i] in t && b[at..at + |t|][i] == b[at + i] != 0;
  }

  lemma NamedIs(b: seq<u8>, p: PropAt, name: seq<u8>)
    requires 16 <= |b| && Token(b, 12) + p.nameoff < |b| && 0 in b[Token(b, 12) + p.nameoff..]
    ensures Named(b, p, name) <==> CString(b, Token(b, 12) + p.nameoff) == name
  {
    var at := Token(b, 12) + p.nameoff;
    if Named(b, p, name) { OneTerminated(b, at, CString(b, at), name); }
  }

  /** Property names are in the strings block. */
  predicate NamesOk(b: seq<u8>, strings: nat, items: Items) {
    match items
    case NoItems => true
    case Nop(rest) => NamesOk(b, strings, rest)
    case Prop(nameoff, _, rest) => strings + nameoff < |b| && 0 in b[strings + nameoff..] && NamesOk(b, strings, rest)
  }

  /** The name of a property stands in the strings block, whose offset the header holds in its fourth
      word. */
  predicate Named(b: seq<u8>, p: PropAt, name: seq<u8>) {
    16 <= |b| && Terminated(b, Token(b, 12) + p.nameoff, name)
  }

  lemma NameThere(b: seq<u8>, at: nat, name: seq<u8>)
    requires Has(b, at, Name(name))
    ensures Has(b, at, name + [0]) && at + |name| <= |b|
  {
    Split(b, at, name + [0], Repeat<u8>(0, Align(|name| + 1) - (|name| + 1)));
  }

  lemma NextToken(b: seq<u8>, at: nat, left: nat, n: Node)
    requires NodeOk(n) && Has(b, at, Nops(left) + NodeBytes(n))
    ensures at + 4 <= |b| && Token(b, at) == if left > 0 then FDT_NOP else FDT_BEGIN_NODE
  {
    if left > 0 {
      NopsThen(b, at, left, NodeBytes(n));
    } else {
      assert Nops(0) + NodeBytes(n) == NodeBytes(n);
      NodeParts(b, at, n);
    }
  }

  lemma AfterKid(b: seq<u8>, at: nat, gap: nat, ks: Kids)
    requires KidsOk(ks) && Has(b, at, Nops(gap) + KidsEnd(ks))
    ensures at + 4 <= |b|
    ensures Token(b, at) == if gap > 0 then FDT_NOP else if ks.Kid? then FDT_BEGIN_NODE else FDT_END_NODE
    ensures gap == 0 ==> Has(b, at, KidsEnd(ks))
  {
    if gap > 0 {
      NopsThen(b, at, gap, KidsEnd(ks));
    } else {
      assert Nops(0) + KidsEnd(ks) == KidsEnd(ks);
      KidsParts(b, at, ks);
    }
  }

  lemma NothingSeen(at: nat, path: seq<u8>)
    requires Component(path) != []
    ensures SearchSeen(WalkKids(NoKids, at), path) == Missed && |KidsEnd(NoKids)| == 4
  {
  }
}
