/** The OTB loader: an escaped, nested node stream parsed with an explicit stack of node pointers. */
module OtbLoader {
  import opened Basics
  import opened ByteStream

  const ESCAPE: Byte := 0xFD
  const START: Byte := 0xFE
  const END: Byte := 0xFF
  const IDENTIFIER_SIZE := 4
  const MINIMAL_SIZE := 7
  const WILDCARD: seq<Byte> := [0, 0, 0, 0]

  /** propsBegin and propsEnd index the file; a fresh node has a null (0) propsEnd. */
  datatype Node = Node(ty: Byte, propsBegin: nat, propsEnd: nat, children: seq<Node>)

  /** A pointer into the tree, as the child indices that lead to the node. */
  type Path = seq<nat>

  ghost predicate ValidPath(n: Node, p: Path) {
    p == [] || (p[0] < |n.children| && ValidPath(n.children[p[0]], p[1..]))
  }

  function NodeAt(n: Node, p: Path): Node
    requires ValidPath(n, p)
  {
    if p == [] then n else NodeAt(n.children[p[0]], p[1..])
  }

  function Replace(n: Node, p: Path, node: Node): Node
    requires ValidPath(n, p)
  {
    if p == [] then node
    else n.(children := n.children[p[0] := Replace(n.children[p[0]], p[1..], node)])
  }

  // ---------------------------------------------------------------------
  // Algebra of pointers
  // ---------------------------------------------------------------------

  lemma {:induction false} ReplaceThenRead(n: Node, p: Path, node: Node)
    requires ValidPath(n, p)
    ensures ValidPath(Replace(n, p, node), p)
    ensures NodeAt(Replace(n, p, node), p) == node
  {
    if p != [] { ReplaceThenRead(n.children[p[0]], p[1..], node); }
  }

  lemma {:induction false} ReplaceTwice(n: Node, p: Path, a: Node, b: Node)
    requires ValidPath(n, p)
    ensures ValidPath(Replace(n, p, a), p)
    ensures Replace(Replace(n, p, a), p, b) == Replace(n, p, b)
  {
    if p != [] { ReplaceTwice(n.children[p[0]], p[1..], a, b); }
  }

  lemma {:induction false} ReplaceSame(n: Node, p: Path)
    requires ValidPath(n, p)
    ensures Replace(n, p, NodeAt(n, p)) == n
  {
    if p != [] { ReplaceSame(n.children[p[0]], p[1..]); }
  }

  lemma {:induction false} ChildPath(n: Node, p: Path, k: nat)
    requires ValidPath(n, p) && k < |NodeAt(n, p).children|
    ensures ValidPath(n, p + [k]) && NodeAt(n, p + [k]) == NodeAt(n, p).children[k]
  {
    if p == [] {
      assert (p + [k])[1..] == [];
    } else {
      ChildPath(n.children[p[0]], p[1..], k);
      assert (p + [k])[1..] == p[1..] + [k];
    }
  }

  lemma {:induction false} ReplaceChild(n: Node, p: Path, a: Node, k: nat, b: Node)
    requires ValidPath(n, p) && k < |a.children|
    ensures ValidPath(Replace(n, p, a), p + [k])
    ensures Replace(Replace(n, p, a), p + [k], b) == Replace(n, p, a.(children := a.children[k := b]))
  {
    if p == [] {
      assert (p + [k])[1..] == [];
    } else {
      ReplaceChild(n.children[p[0]], p[1..], a, k, b);
      assert (p + [k])[1..] == p[1..] + [k];
    }
  }

  // ---------------------------------------------------------------------
  // The rightmost spine: which nodes the parse stack may point to
  // ---------------------------------------------------------------------

  /** A finished node: its property range lies in the file read so far. */
  ghost predicate Closed(n: Node, it: nat) {
    n.propsBegin <= n.propsEnd <= it && forall c <- n.children :: Closed(c, it)
  }

  /** p leads down last children only; everything off that spine is finished. */
  ghost predicate Open(n: Node, p: Path, it: nat) {
    && n.propsBegin <= it
    && (n.children != [] ==> n.propsBegin <= n.propsEnd <= it)
    && if p == [] then forall c <- n.children :: Closed(c, it)
       else
         && |n.children| > 0 && p[0] == |n.children| - 1
         && (forall i | 0 <= i < |n.children| - 1 :: Closed(n.children[i], it))
         && Open(n.children[p[0]], p[1..], it)
  }

  lemma {:induction false} ClosedLater(n: Node, it: nat, later: nat)
    requires Closed(n, it) && it <= later
    ensures Closed(n, later)
  {
    forall c | c in n.children ensures Closed(c, later) { ClosedLater(c, it, later); }
  }

  lemma {:induction false} OpenLater(n: Node, p: Path, it: nat, later: nat)
    requires Open(n, p, it) && it <= later
    ensures Open(n, p, later)
  {
    if p == [] {
      forall c | c in n.children ensures Closed(c, later) { ClosedLater(c, it, later); }
    } else {
      forall i | 0 <= i < |n.children| - 1 ensures Closed(n.children[i], later) {
        ClosedLater(n.children[i], it, later);
      }
      OpenLater(n.children[p[0]], p[1..], it, later);
    }
  }

  lemma {:induction false} OpenIsValid(n: Node, p: Path, it: nat)
    requires Open(n, p, it)
    ensures ValidPath(n, p) && Open(NodeAt(n, p), [], it)
  {
    if p != [] { OpenIsValid(n.children[p[0]], p[1..], it); }
  }

  lemma {:induction false} OpenReplace(n: Node, p: Path, node: Node, q: Path, it: nat)
    requires Open(n, p, it) && ValidPath(n, p) && Open(node, q, it)
    ensures Open(Replace(n, p, node), p + q, it)
  {
    if p == [] {
      assert p + q == q;
    } else {
      OpenReplace(n.children[p[0]], p[1..], node, q, it);
      assert (p + q)[1..] == p[1..] + q;
    }
  }

  lemma {:induction false} OpenPop(n: Node, p: Path, it: nat)
    requires Open(n, p, it) && p != [] && ValidPath(n, p) && Closed(NodeAt(n, p), it)
    ensures Open(n, p[..|p| - 1], it)
  {
    var c := n.children[p[0]];
    if |p| == 1 {
      assert p[1..] == [] && NodeAt(n, p) == c;
      forall x | x in n.children ensures Closed(x, it) {
        var i :| 0 <= i < |n.children| && n.children[i] == x;
      }
    } else {
      OpenPop(c, p[1..], it);
      assert p[..|p| - 1][1..] == p[1..][..|p[1..]| - 1];
    }
  }

  // ---------------------------------------------------------------------
  // One turn of the parse loop
  // ---------------------------------------------------------------------

  datatype Parser = Parser(root: Node, stack: seq<Path>, it: nat) | Invalid

  /** The stack points at the root, its last child, and so on down to the node being filled. */
  ghost predicate Live(s: Parser) {
    s.Parser? ==>
      && (s.stack == [] ==> Closed(s.root, s.it))
      && (s.stack != [] ==>
          var top := s.stack[|s.stack| - 1];
          && |top| == |s.stack| - 1
          && (forall i | 0 <= i < |s.stack| :: s.stack[i] == top[..i])
          && Open(s.root, top, s.it))
  }

  function AddChild(n: Node, at: nat, child: Node): Node {
    n.(propsEnd := if n.children == [] then at else n.propsEnd, children := n.children + [child])
  }

  function Finish(n: Node, at: nat): Node {
    if n.children == [] then n.(propsEnd := at) else n
  }

  function Step(data: seq<Byte>, s: Parser): (r: Parser)
    requires s.Parser? && s.it < |data| && Live(s)
    ensures r.Parser? ==> s.it < r.it <= |data|
  {
    var Parser(root, stack, it) := s;
    var b := data[it];
    if b == START then
      if stack == [] || it + 1 == |data| then Invalid
      else
        var top := stack[|stack| - 1];
        OpenIsValid(root, top, it);
        var n := NodeAt(root, top);
        Parser(Replace(root, top, AddChild(n, it, Node(data[it + 1], it + 2, 0, []))),
               stack + [top + [|n.children|]], it + 2)
    else if b == END then
      if stack == [] then Invalid
      else
        var top := stack[|stack| - 1];
        OpenIsValid(root, top, it);
        Parser(Replace(root, top, Finish(NodeAt(root, top), it)), stack[..|stack| - 1], it + 1)
    else if b == ESCAPE then
      if it + 1 == |data| then Invalid else Parser(root, stack, it + 2)
    else
      Parser(root, stack, it + 1)
  }

  /** Appending a sibling never leaves a dangling stack entry: the stack stays the rightmost spine. */
  lemma StepKeepsLive(data: seq<Byte>, s: Parser)
    requires s.Parser? && s.it < |data| && Live(s)
    ensures Live(Step(data, s))
  {
    var Parser(root, stack, it) := s;
    var r := Step(data, s);
    if r.Invalid? { return; }
    if stack == [] {
      ClosedLater(root, it, r.it);
      return;
    }
    var top := stack[|stack| - 1];
    OpenIsValid(root, top, it);
    OpenLater(root, top, it, r.it);
    OpenIsValid(root, top, r.it);
    var n := NodeAt(root, top);
    if data[it] == START {
      var child := Node(data[it + 1], it + 2, 0, []);
      var k := |n.children|;
      var n' := AddChild(n, it, child);
      assert [k][1..] == [];
      assert Open(n', [k], r.it) by {
        assert Open(child, [], r.it);
        forall i | 0 <= i < |n'.children| - 1 ensures Closed(n'.children[i], r.it) {
          assert n'.children[i] in n.children;
        }
      }
      OpenReplace(root, top, n', [k], r.it);
      assert forall i | 0 <= i < |r.stack| :: r.stack[i] == (top + [k])[..i];
    } else if data[it] == END {
      PopKeepsLive(root, stack, it);
    }
  }

  lemma PopKeepsLive(root: Node, stack: seq<Path>, it: nat)
    requires stack != [] && Live(Parser(root, stack, it))
    requires ValidPath(root, stack[|stack| - 1])
    ensures var top := stack[|stack| - 1];
            Live(Parser(Replace(root, top, Finish(NodeAt(root, top), it)), stack[..|stack| - 1], it + 1))
  {
    var top := stack[|stack| - 1];
    OpenLater(root, top, it, it + 1);
    OpenIsValid(root, top, it + 1);
    var n := Finish(NodeAt(root, top), it);
    OpenIsValid(root, top, it);
    assert Closed(n, it + 1);
    assert Open(n, [], it + 1);
    OpenReplace(root, top, n, [], it + 1);
    assert top + [] == top;
    ReplaceThenRead(root, top, n);
    if |stack| > 1 {
      OpenPop(Replace(root, top, n), top, it + 1);
      assert stack[|stack| - 2] == top[..|stack| - 2];
      assert forall i | 0 <= i < |stack| - 1 :: stack[i] == top[..|top| - 1][..i];
    }
  }

  /** Growing a node's children may move those children in memory; no stack entry points at one. Every entry still names
      the node it named: the one on top has a child more, the others have the same children as far as they can tell. */
  lemma GrowingMovesNoStackEntry(data: seq<Byte>, s: Parser, i: nat)
    requires s.Parser? && s.it < |data| && Live(s) && i < |s.stack|
    requires data[s.it] == START && Step(data, s).Parser?
    ensures var r := Step(data, s);
      && r.stack[i] == s.stack[i] && ValidPath(s.root, s.stack[i]) && ValidPath(r.root, s.stack[i])
      && var a, b := NodeAt(s.root, s.stack[i]), NodeAt(r.root, s.stack[i]);
         && b.ty == a.ty && b.propsBegin == a.propsBegin
         && if i == |s.stack| - 1 then |b.children| == |a.children| + 1 && b.children[..|a.children|] == a.children
            else b.propsEnd == a.propsEnd && |b.children| == |a.children|
  {
    var top := s.stack[|s.stack| - 1];
    OpenIsValid(s.root, top, s.it);
    var n := NodeAt(s.root, top);
    ReplaceKeepsPrefix(s.root, top, AddChild(n, s.it, Node(data[s.it + 1], s.it + 2, 0, [])), i);
    assert top[..|top|] == top;
  }

  lemma {:induction false} ReplaceKeepsPrefix(n: Node, p: Path, node: Node, i: nat)
    requires ValidPath(n, p) && i <= |p|
    ensures ValidPath(n, p[..i]) && ValidPath(Replace(n, p, node), p[..i])
    ensures var a, b := NodeAt(n, p[..i]), NodeAt(Replace(n, p, node), p[..i]);
            if i == |p| then b == node && a == NodeAt(n, p)
            else b.ty == a.ty && b.propsBegin == a.propsBegin && b.propsEnd == a.propsEnd && |b.children| == |a.children|
  {
    if i > 0 {
      ReplaceKeepsPrefix(n.children[p[0]], p[1..], node, i - 1);
      assert p[..i][1..] == p[1..][..i - 1];
    }
  }

  function Run(data: seq<Byte>, s: Parser): (r: Option<Node>)
    requires s.Parser? ==> s.it <= |data|
    requires Live(s)
    ensures r.Some? ==> Closed(r.value, |data|)
    decreases if s.Parser? then |data| - s.it else 0
  {
    if s.Invalid? then None
    else if s.it == |data| then if s.stack == [] then Some(s.root) else None
    else StepKeepsLive(data, s); var t := Step(data, s); if t.Invalid? then None else Run(data, t)
  }

  function InitialState(data: seq<Byte>): (s: Parser)
    requires |data| > MINIMAL_SIZE
    ensures Live(s) && s.Parser? && s.it <= |data|
  {
    Parser(Node(data[5], 6, 0, []), [[]], 6)
  }

  function Parse(data: seq<Byte>): (r: Option<Node>)
    requires |data| > MINIMAL_SIZE
    ensures r.Some? ==> Closed(r.value, |data|)
  {
    if data[IDENTIFIER_SIZE] != START then None else Run(data, InitialState(data))
  }

  // ---------------------------------------------------------------------
  // The format: trees and the bytes that stand for them
  // ---------------------------------------------------------------------

  datatype Tree = Tree(ty: Byte, props: seq<Byte>, children: seq<Tree>)

  function EscapeByte(b: Byte): seq<Byte> {
    if b == ESCAPE || b == START || b == END then [ESCAPE, b] else [b]
  }

  function Escape(props: seq<Byte>): seq<Byte> {
    if props == [] then [] else EscapeByte(props[0]) + Escape(props[1..])
  }

  function Encode(t: Tree): seq<Byte> {
    [START, t.ty] + Escape(t.props) + EncodeAll(t.children) + [END]
  }

  function EncodeAll(ts: seq<Tree>): seq<Byte> {
    if ts == [] then [] else Encode(ts[0]) + EncodeAll(ts[1..])
  }

  /** The node a tree is loaded as when its bytes start at position `at`. */
  function Loaded(t: Tree, at: nat): Node {
    var first := at + 2 + |Escape(t.props)|;
    Node(t.ty, at + 2, first, LoadedAll(t.children, first))
  }

  function LoadedAll(ts: seq<Tree>, at: nat): (ns: seq<Node>)
    ensures |ns| == |ts|
  {
    if ts == [] then [] else [Loaded(ts[0], at)] + LoadedAll(ts[1..], at + |Encode(ts[0])|)
  }

  ghost predicate At(data: seq<Byte>, it: nat, bytes: seq<Byte>) {
    it + |bytes| <= |data| && data[it..it + |bytes|] == bytes
  }

  lemma AtSplit(data: seq<Byte>, it: nat, a: seq<Byte>, b: seq<Byte>)
    requires At(data, it, a + b)
    ensures At(data, it, a) && At(data, it + |a|, b)
  {
    var w := data[it..it + |a + b|];
    assert data[it..it + |a|] == w[..|a|];
    assert data[it + |a|..it + |a| + |b|] == w[|a|..];
  }

  lemma AtHead(data: seq<Byte>, it: nat, bytes: seq<Byte>)
    requires At(data, it, bytes) && bytes != []
    ensures it < |data| && data[it] == bytes[0]
  {
    assert data[it..it + |bytes|][0] == data[it];
  }

  /** Where the pieces of an encoded tree lie. */
  lemma EncodeSplit(data: seq<Byte>, it: nat, t: Tree)
    requires At(data, it, Encode(t))
    ensures var esc, kids := Escape(t.props), EncodeAll(t.children);
            var last := it + 2 + |esc| + |kids|;
            && it + |Encode(t)| == last + 1 <= |data|
            && data[it] == START && data[it + 1] == t.ty && data[last] == END
            && At(data, it + 2, esc) && At(data, it + 2 + |esc|, kids)
  {
    SplitPieces(data, it, t.ty, Escape(t.props), EncodeAll(t.children));
  }

  lemma SplitPieces(data: seq<Byte>, it: nat, ty: Byte, esc: seq<Byte>, kids: seq<Byte>)
    requires At(data, it, [START, ty] + esc + kids + [END])
    ensures var last := it + 2 + |esc| + |kids|;
            && last < |data|
            && data[it] == START && data[it + 1] == ty && data[last] == END
            && At(data, it + 2, esc) && At(data, it + 2 + |esc|, kids)
  {
    assert [START, ty] + esc + kids + [END] == [START] + ([ty] + (esc + (kids + [END])));
    AtSplit(data, it, [START], [ty] + (esc + (kids + [END])));
    AtSplit(data, it + 1, [ty], esc + (kids + [END]));
    AtSplit(data, it + 2, esc, kids + [END]);
    AtSplit(data, it + 2 + |esc|, kids, [END]);
    AtHead(data, it, [START]);
    AtHead(data, it + 1, [ty]);
    AtHead(data, it + 2 + |esc| + |kids|, [END]);
  }

  // ---------------------------------------------------------------------
  // The parser undoes the encoding
  // ---------------------------------------------------------------------

  lemma NothingEscaped()
    ensures Escape([]) == []
  {
  }

  lemma EscapeCons(props: seq<Byte>)
    requires props != []
    ensures Escape(props) == EscapeByte(props[0]) + Escape(props[1..])
  {
  }

  lemma {:induction false} RunProps(data: seq<Byte>, root: Node, stack: seq<Path>, it: nat, props: seq<Byte>)
    requires Live(Parser(root, stack, it)) && At(data, it, Escape(props))
    ensures Live(Parser(root, stack, it + |Escape(props)|))
    ensures Run(data, Parser(root, stack, it)) == Run(data, Parser(root, stack, it + |Escape(props)|))
    decreases |props|
  {
    hide Escape, Live;
    NothingEscaped();
    if props != [] {
      var e := EscapeByte(props[0]);
      EscapeCons(props);
      AtSplit(data, it, e, Escape(props[1..]));
      AtHead(data, it, e);
      StepKeepsLive(data, Parser(root, stack, it));
      RunProps(data, root, stack, it + |e|, props[1..]);
    }
  }

  /** A whole child node read while `top` is the node being filled: it becomes top's last child. */
  lemma {:induction false} RunChild(data: seq<Byte>, root: Node, stack: seq<Path>, it: nat, t: Tree)
    requires stack != [] && Live(Parser(root, stack, it)) && At(data, it, Encode(t))
    requires ValidPath(root, stack[|stack| - 1])
    ensures var top := stack[|stack| - 1];
            var s := Parser(Replace(root, top, AddChild(NodeAt(root, top), it, Loaded(t, it))), stack, it + |Encode(t)|);
            Live(s) && Run(data, Parser(root, stack, it)) == Run(data, s)
    decreases t, 1
  {
    hide Encode, EncodeAll, Escape, Closed, Open, Loaded, LoadedAll, NodeAt, Replace, Run, Step, Live;
    var top := stack[|stack| - 1];
    var n := NodeAt(root, top);
    EncodeSplit(data, it, t);
    RunStart(data, root, stack, it, n);
    var root1 := Replace(root, top, AddChild(n, it, Node(t.ty, it + 2, 0, [])));
    var stack1 := stack + [top + [|n.children|]];
    RunProps(data, root1, stack1, it + 2, t.props);
    RunChildren(data, root1, stack1, it + 2 + |Escape(t.props)|, t.children);
    RunEnd(data, root, stack, it, t, n, root1);
  }

  lemma RunStart(data: seq<Byte>, root: Node, stack: seq<Path>, it: nat, n: Node)
    requires stack != [] && Live(Parser(root, stack, it)) && it + 1 < |data| && data[it] == START
    requires ValidPath(root, stack[|stack| - 1]) && n == NodeAt(root, stack[|stack| - 1])
    ensures var top := stack[|stack| - 1];
            var empty := Node(data[it + 1], it + 2, 0, []);
            var root1 := Replace(root, top, AddChild(n, it, empty));
            var path := top + [|n.children|];
            var s := Parser(root1, stack + [path], it + 2);
            && Live(s) && ValidPath(root1, path) && NodeAt(root1, path) == empty
            && Run(data, Parser(root, stack, it)) == Run(data, s)
  {
    hide Closed, Open, NodeAt, Replace;
    var top := stack[|stack| - 1];
    var a := AddChild(n, it, Node(data[it + 1], it + 2, 0, []));
    StepKeepsLive(data, Parser(root, stack, it));
    ReplaceThenRead(root, top, a);
    ChildPath(Replace(root, top, a), top, |n.children|);
  }

  lemma RunEnd(data: seq<Byte>, root: Node, stack: seq<Path>, it: nat, t: Tree, n: Node, root1: Node)
    requires stack != [] && At(data, it, Encode(t))
    requires var top := stack[|stack| - 1];
             && ValidPath(root, top) && n == NodeAt(root, top)
             && root1 == Replace(root, top, AddChild(n, it, Node(t.ty, it + 2, 0, [])))
             && ValidPath(root1, top + [|n.children|])
             && NodeAt(root1, top + [|n.children|]) == Node(t.ty, it + 2, 0, [])
    requires var path := stack[|stack| - 1] + [|n.children|];
             var first := it + 2 + |Escape(t.props)|;
             Live(Parser(Replace(root1, path, AddChildren(NodeAt(root1, path), first, t.children)), stack + [path],
                         first + |EncodeAll(t.children)|))
    ensures var top := stack[|stack| - 1];
            var path := top + [|n.children|];
            var first := it + 2 + |Escape(t.props)|;
            var s := Parser(Replace(root1, path, AddChildren(NodeAt(root1, path), first, t.children)), stack + [path],
                            first + |EncodeAll(t.children)|);
            var r := Parser(Replace(root, top, AddChild(n, it, Loaded(t, it))), stack, it + |Encode(t)|);
            && s.it <= |data| && r.it <= |data|
            && Live(r) && Run(data, s) == Run(data, r)
  {
    hide Encode, EncodeAll, Escape, Closed, Open, Loaded, LoadedAll, Replace, NodeAt, AddChild, AddChildren;
    var top := stack[|stack| - 1];
    var empty := Node(t.ty, it + 2, 0, []);
    var path := top + [|n.children|];
    var first := it + 2 + |Escape(t.props)|;
    var last := first + |EncodeAll(t.children)|;
    EncodeSplit(data, it, t);
    FinishedIsLoaded(t, it, first);
    var filled := AddChildren(empty, first, t.children);
    var s := Parser(Replace(root1, path, filled), stack + [path], last);
    StepKeepsLive(data, s);
    ChildEnds(root, top, it, empty, filled, Loaded(t, it));
    assert (stack + [path])[..|stack|] == stack;
  }

  function AddChildren(n: Node, at: nat, ts: seq<Tree>): Node
    decreases |ts|
  {
    if ts == [] then n
    else AddChildren(AddChild(n, at, Loaded(ts[0], at)), at + |Encode(ts[0])|, ts[1..])
  }

  lemma {:induction false} AddChildrenIs(n: Node, at: nat, ts: seq<Tree>)
    ensures var r := AddChildren(n, at, ts);
            && r.ty == n.ty && r.propsBegin == n.propsBegin
            && r.propsEnd == (if n.children == [] && ts != [] then at else n.propsEnd)
            && r.children == n.children + LoadedAll(ts, at)
    decreases |ts|
  {
    hide Encode, EncodeAll, Escape, Loaded;
    if ts != [] {
      var first, later := Loaded(ts[0], at), at + |Encode(ts[0])|;
      AddChildrenIs(AddChild(n, at, first), later, ts[1..]);
      Assoc(n.children, [first], LoadedAll(ts[1..], later));
    }
  }

  /** A child that was appended empty, filled and finished is as if it had been appended whole. */
  lemma ChildEnds(root: Node, top: Path, it: nat, empty: Node, filled: Node, whole: Node)
    requires ValidPath(root, top)
    requires ValidPath(Replace(root, top, AddChild(NodeAt(root, top), it, empty)), top + [|NodeAt(root, top).children|])
    ensures var n := NodeAt(root, top);
            var path, root1 := top + [|n.children|], Replace(root, top, AddChild(n, it, empty));
            && ValidPath(Replace(root1, path, filled), path) && NodeAt(Replace(root1, path, filled), path) == filled
            && Replace(Replace(root1, path, filled), path, whole) == Replace(root, top, AddChild(n, it, whole))
  {
    hide Replace, NodeAt;
    var n := NodeAt(root, top);
    var a, path := AddChild(n, it, empty), top + [|n.children|];
    ReplaceThenRead(Replace(root, top, a), path, filled);
    ReplaceTwice(Replace(root, top, a), path, filled, whole);
    ReplaceChild(root, top, a, |n.children|, whole);
    assert a.children[|n.children| := whole] == n.children + [whole];
  }

  lemma FinishedIsLoaded(t: Tree, it: nat, first: nat)
    requires first == it + 2 + |Escape(t.props)|
    ensures Finish(AddChildren(Node(t.ty, it + 2, 0, []), first, t.children), first + |EncodeAll(t.children)|)
         == Loaded(t, it)
  {
    hide Encode, Escape, LoadedAll, AddChildren;
    AddChildrenIs(Node(t.ty, it + 2, 0, []), first, t.children);
    assert LoadedAll([], first) == [] by { NothingLoaded(first); }
  }

  lemma NothingLoaded(at: nat)
    ensures LoadedAll([], at) == []
  {
  }

  lemma {:induction false} RunChildren(data: seq<Byte>, root: Node, stack: seq<Path>, it: nat, ts: seq<Tree>)
    requires stack != [] && Live(Parser(root, stack, it)) && At(data, it, EncodeAll(ts))
    requires ValidPath(root, stack[|stack| - 1])
    ensures var top := stack[|stack| - 1];
            var s := Parser(Replace(root, top, AddChildren(NodeAt(root, top), it, ts)), stack, it + |EncodeAll(ts)|);
            Live(s) && Run(data, Parser(root, stack, it)) == Run(data, s)
    decreases ts, 0
  {
    hide Encode, Escape, Closed, Open, Loaded, LoadedAll, NodeAt, Replace, Run;
    var top := stack[|stack| - 1];
    var n := NodeAt(root, top);
    if ts == [] {
      ReplaceSame(root, top);
    } else {
      AtSplit(data, it, Encode(ts[0]), EncodeAll(ts[1..]));
      RunChild(data, root, stack, it, ts[0]);
      var n1 := AddChild(n, it, Loaded(ts[0], it));
      var root1 := Replace(root, top, n1);
      ReplaceThenRead(root, top, n1);
      RunChildren(data, root1, stack, it + |Encode(ts[0])|, ts[1..]);
      ReplaceTwice(root, top, n1, AddChildren(n1, it + |Encode(ts[0])|, ts[1..]));
    }
  }

  /** Bytes after the root node are accepted, and ignored, exactly when no unescaped marker
      and no unfinished escape occurs among them. */
  predicate Inert(tail: seq<Byte>) {
    if tail == [] then true
    else if tail[0] == START || tail[0] == END then false
    else if tail[0] == ESCAPE then |tail| > 1 && Inert(tail[2..])
    else Inert(tail[1..])
  }

  lemma {:induction false} RunTail(data: seq<Byte>, root: Node, it: nat)
    requires it <= |data| && Closed(root, it)
    ensures Run(data, Parser(root, [], it)) == if Inert(data[it..]) then Some(root) else None
    decreases |data| - it
  {
    if it < |data| {
      var s := Parser(root, [], it);
      StepKeepsLive(data, s);
      if data[it] == START || data[it] == END {
      } else if data[it] == ESCAPE {
        if it + 1 < |data| {
          ClosedLater(root, it, it + 2);
          RunTail(data, root, it + 2);
          assert data[it..][2..] == data[it + 2..];
        }
      } else {
        ClosedLater(root, it, it + 1);
        RunTail(data, root, it + 1);
        assert data[it..][1..] == data[it + 1..];
      }
    }
  }

  /** Every tree survives: types, shape and property ranges. What follows the root decides acceptance. */
  lemma ParseOfEncoding(identifier: seq<Byte>, t: Tree, tail: seq<Byte>)
    requires |identifier| == IDENTIFIER_SIZE
    requires |identifier + Encode(t) + tail| > MINIMAL_SIZE
    ensures Parse(identifier + Encode(t) + tail) ==
            if Inert(tail) then Some(Loaded(t, IDENTIFIER_SIZE)) else None
  {
    hide Encode, EncodeAll, Escape, Closed, Open, Loaded, LoadedAll, Inert, Run, Step, AddChildren;
    var data := identifier + Encode(t) + tail;
    assert data[4..4 + |Encode(t)|] == Encode(t);
    EncodeSplit(data, 4, t);
    var root := Node(t.ty, 6, 0, []);
    EmptyRootLive(root, 6);
    RunProps(data, root, [[]], 6, t.props);
    var first := 6 + |Escape(t.props)|;
    RunChildren(data, root, [[]], first, t.children);
    FinishedIsLoaded(t, 4, first);
    var last := first + |EncodeAll(t.children)|;
    assert Replace(root, [], AddChildren(root, first, t.children)) == AddChildren(root, first, t.children);
    RunRootEnd(data, AddChildren(root, first, t.children), last);
    RunTail(data, Loaded(t, 4), last + 1);
    assert data[last + 1..] == tail;
  }

  lemma EmptyRootLive(root: Node, it: nat)
    requires root.children == [] && root.propsEnd <= it && root.propsBegin <= it
    ensures Live(Parser(root, [[]], it))
  {
  }

  lemma RunRootEnd(data: seq<Byte>, root: Node, it: nat)
    requires Live(Parser(root, [[]], it)) && it < |data| && data[it] == END
    ensures Closed(Finish(root, it), it + 1)
    ensures Run(data, Parser(root, [[]], it)) == Run(data, Parser(Finish(root, it), [], it + 1))
  {
    StepKeepsLive(data, Parser(root, [[]], it));
    var stack: seq<Path> := [[]];
    assert stack[..0] == [];
  }

  // ---------------------------------------------------------------------
  // Property bytes
  // ---------------------------------------------------------------------

  /** Keeps a byte unless it is an escape marker that is not itself escaped. */
  function Unescape(s: seq<Byte>, lastEscaped: bool): seq<Byte> {
    if s == [] then []
    else
      var now := s[0] == ESCAPE && !lastEscaped;
      (if now then [] else [s[0]]) + Unescape(s[1..], now)
  }

  lemma UnescapeNothing(lastEscaped: bool)
    ensures Unescape([], lastEscaped) == []
  {
  }

  lemma UnescapeNext(data: seq<Byte>, i: nat, end: nat, lastEscaped: bool)
    requires i < end <= |data|
    ensures var now := data[i] == ESCAPE && !lastEscaped;
            Unescape(data[i..end], lastEscaped) ==
              if now then Unescape(data[i + 1..end], true) else [data[i]] + Unescape(data[i + 1..end], false)
  {
    assert data[i..end][1..] == data[i + 1..end];
  }

  lemma {:induction false} UnescapeEscape(props: seq<Byte>)
    ensures Unescape(Escape(props), false) == props
  {
    if props != [] {
      var b, rest := props[0], Escape(props[1..]);
      UnescapeEscape(props[1..]);
      if b == ESCAPE || b == START || b == END {
        assert Escape(props) == [ESCAPE, b] + rest;
        assert Escape(props)[1..] == [b] + rest;
        assert ([b] + rest)[1..] == rest;
        assert Unescape([b] + rest, true) == [b] + Unescape(rest, false);
      } else {
        assert Escape(props)[1..] == rest;
      }
    }
  }

  /** What getProps hands out for a node: nothing at all when the range is empty. */
  function Props(data: seq<Byte>, n: Node): Option<seq<Byte>>
    requires n.propsBegin <= n.propsEnd <= |data|
  {
    if n.propsBegin == n.propsEnd then None
    else Some(Unescape(data[n.propsBegin..n.propsEnd], false))
  }

  /** The loaded nodes stand for the tree they came from: same types, same children, and every node
      with properties hands out exactly its original bytes. */
  ghost predicate Represents(data: seq<Byte>, n: Node, t: Tree) {
    && n.ty == t.ty
    && n.propsBegin <= n.propsEnd <= |data|
    && Props(data, n) == (if t.props == [] then None else Some(t.props))
    && |n.children| == |t.children|
    && forall i | 0 <= i < |t.children| :: Represents(data, n.children[i], t.children[i])
  }

  lemma {:induction false} LoadedRepresents(data: seq<Byte>, t: Tree, at: nat)
    requires At(data, at, Encode(t))
    ensures Represents(data, Loaded(t, at), t)
    decreases t, 1
  {
    hide Encode, EncodeAll, Escape, LoadedAll, Unescape;
    EncodeSplit(data, at, t);
    NothingEscaped();
    if t.props != [] { EscapeCons(t.props); }
    UnescapeEscape(t.props);
    LoadedAllRepresent(data, t.children, at + 2 + |Escape(t.props)|);
  }

  lemma {:induction false} LoadedAllRepresent(data: seq<Byte>, ts: seq<Tree>, at: nat)
    requires At(data, at, EncodeAll(ts))
    ensures forall i | 0 <= i < |ts| :: Represents(data, LoadedAll(ts, at)[i], ts[i])
    decreases ts, 0
  {
    if ts != [] {
      AtSplit(data, at, Encode(ts[0]), EncodeAll(ts[1..]));
      LoadedRepresents(data, ts[0], at);
      var rest := LoadedAll(ts[1..], at + |Encode(ts[0])|);
      LoadedAllRepresent(data, ts[1..], at + |Encode(ts[0])|);
      forall i | 0 <= i < |ts| ensures Represents(data, LoadedAll(ts, at)[i], ts[i]) {
        if i > 0 {
          assert LoadedAll(ts, at)[i] == rest[i - 1] && ts[i] == ts[1..][i - 1];
        }
      }
    }
  }

  /** Parsing the encoding of a tree, and asking each node for its properties, gives the tree back. */
  lemma RoundTrip(identifier: seq<Byte>, t: Tree)
    requires |identifier| == IDENTIFIER_SIZE
    requires |identifier + Encode(t)| > MINIMAL_SIZE
    ensures var r := Parse(identifier + Encode(t));
            r.Some? && Represents(identifier + Encode(t), r.value, t)
  {
    var data := identifier + Encode(t);
    assert data == identifier + Encode(t) + [];
    ParseOfEncoding(identifier, t, []);
    assert At(data, IDENTIFIER_SIZE, Encode(t));
    LoadedRepresents(data, t, IDENTIFIER_SIZE);
  }

  // ---------------------------------------------------------------------
  // The loader object
  // ---------------------------------------------------------------------

  class Loader {
    var fileContents: seq<Byte>
    var root: Node

    ghost predicate Valid()
      reads this
    {
      |fileContents| > MINIMAL_SIZE
    }

    /** Opening a file: ok is false where the source throws InvalidOTBFormat. */
    method Open(contents: seq<Byte>, accepted: seq<Byte>) returns (ok: bool)
      requires |accepted| == IDENTIFIER_SIZE
      modifies this
      ensures ok <==> |contents| > MINIMAL_SIZE &&
                      (contents[..IDENTIFIER_SIZE] == accepted || contents[..IDENTIFIER_SIZE] == WILDCARD)
      ensures fileContents == contents && root == Node(0, 0, 0, [])
      ensures ok ==> Valid()
    {
      fileContents, root := contents, Node(0, 0, 0, []);
      if |contents| <= MINIMAL_SIZE {
        return false;
      }
      var identifier := contents[..IDENTIFIER_SIZE];
      return identifier == accepted || identifier == WILDCARD;
    }

    method ParseTree() returns (r: Option<Node>)
      requires Valid() && root == Node(0, 0, 0, [])
      modifies this`root
      ensures r == Parse(fileContents)
      ensures r.Some? ==> root == r.value
    {
      var it := IDENTIFIER_SIZE;
      if fileContents[it] != START {
        return None;
      }
      root := root.(ty := fileContents[5], propsBegin := 6);
      it := 6;
      var parseStack: seq<Path> := [[]];
      assert InitialState(fileContents) == Parser(root, parseStack, it);
      while it < |fileContents|
        invariant it <= |fileContents|
        invariant Live(Parser(root, parseStack, it))
        invariant Run(fileContents, Parser(root, parseStack, it)) == Parse(fileContents)
      {
        ghost var before := Parser(root, parseStack, it);
        StepKeepsLive(fileContents, before);
        if fileContents[it] == START {
          if parseStack == [] {
            return None;
          }
          var top := parseStack[|parseStack| - 1];
          OpenIsValid(root, top, it);
          var current := NodeAt(root, top);
          if it + 1 == |fileContents| {
            return None;
          }
          if current.children == [] {
            current := current.(propsEnd := it);
          }
          var child := Node(fileContents[it + 1], it + 2, 0, []);
          var index := |current.children|;
          current := current.(children := current.children + [child]);
          root := Replace(root, top, current);
          parseStack := parseStack + [top + [index]];
          it := it + 1;
        } else if fileContents[it] == END {
          if parseStack == [] {
            return None;
          }
          var top := parseStack[|parseStack| - 1];
          OpenIsValid(root, top, it);
          var current := NodeAt(root, top);
          if current.children == [] {
            current := current.(propsEnd := it);
          }
          root := Replace(root, top, current);
          parseStack := parseStack[..|parseStack| - 1];
        } else if fileContents[it] == ESCAPE {
          it := it + 1;
          if it == |fileContents| {
            return None;
          }
        }
        it := it + 1;
        assert Parser(root, parseStack, it) == Step(fileContents, before);
      }
      if parseStack != [] {
        return None;
      }
      return Some(root);
    }

    method GetProps(n: Node) returns (r: Option<seq<Byte>>)
      requires n.propsBegin <= n.propsEnd <= |fileContents|
      ensures r == Props(fileContents, n)
    {
      hide Unescape;
      var size := n.propsEnd - n.propsBegin;
      if size == 0 {
        return None;
      }
      ghost var range := fileContents[n.propsBegin..n.propsEnd];
      var propBuffer: seq<Byte> := [];
      var lastEscaped := false;
      var i := n.propsBegin;
      while i < n.propsEnd
        invariant n.propsBegin <= i <= n.propsEnd
        invariant Unescape(range, false) == propBuffer + Unescape(fileContents[i..n.propsEnd], lastEscaped)
      {
        var byte := fileContents[i];
        UnescapeNext(fileContents, i, n.propsEnd, lastEscaped);
        lastEscaped := byte == ESCAPE && !lastEscaped;
        if !lastEscaped {
          Assoc(propBuffer, [byte], Unescape(fileContents[i + 1..n.propsEnd], lastEscaped));
          propBuffer := propBuffer + [byte];
        }
        i := i + 1;
      }
      UnescapeNothing(lastEscaped);
      assert fileContents[i..n.propsEnd] == [] && propBuffer + [] == propBuffer;
      return Some(propBuffer);
    }
  }
}
