/** The trie of libs/service/src/trie.rs as a value: what its nodes hold, what each recursive
    operation makes of a tree, and what a look-up sees afterwards. */
module TreeSpec {
  import opened Types
  import opened Messages
  import FilterUtil

  /** One level of a filter. */
  datatype Segment = Hash | Plus | Name(name: Text)

  type Path = seq<Segment>

  datatype Tree = Tree(
    children: map<Segment, Tree>,
    data: map<Text, FilterItem>,
    retained: Option<Message>)

  const EMPTY: Tree := Tree(map[], map[], None)

  function SegmentOf(level: Text): Segment {
    if level == [FilterUtil.HASH] then Hash
    else if level == [FilterUtil.PLUS] then Plus
    else Name(level)
  }

  function Segments(levels: seq<Text>): (path: Path)
    ensures |path| == |levels|
    ensures forall i | 0 <= i < |levels| :: path[i] == SegmentOf(levels[i])
  {
    seq(|levels|, i requires 0 <= i < |levels| => SegmentOf(levels[i]))
  }

  /** The path on which the retained message of a topic lies. */
  function Names(topic: seq<Text>): (path: Path)
    ensures |path| == |topic|
    ensures forall i | 0 <= i < |topic| :: path[i] == Name(topic[i])
  {
    seq(|topic|, i requires 0 <= i < |topic| => Name(topic[i]))
  }

  /** Where a filter's subscriptions lie. */
  function PathOf(filter: Text): Path {
    Segments(FilterUtil.Split(filter))
  }

  predicate IsEmpty(t: Tree) {
    t.children == map[] && t.data == map[] && t.retained.None?
  }

  function Child(t: Tree, s: Segment): Option<Tree> {
    if s in t.children then Some(t.children[s]) else None
  }

  function ChildOrEmpty(t: Tree, s: Segment): Tree {
    if Child(t, s).Some? then Child(t, s).value else EMPTY
  }

  function WithChild(t: Tree, s: Segment, c: Option<Tree>): Tree {
    t.(children := if c.Some? then t.children[s := c.value] else t.children - {s})
  }

  function Pruned(t: Tree): Option<Tree> {
    if IsEmpty(t) then None else Some(t)
  }

  // ----- the operations; the empty path is the node itself -----

  function Insert(t: Tree, p: Path, client: Text, item: FilterItem): Tree
    decreases |p|
  {
    if p == [] then t.(data := t.data[client := item])
    else WithChild(t, p[0], Some(Insert(ChildOrEmpty(t, p[0]), p[1..], client, item)))
  }

  function Remove(t: Tree, p: Path, client: Text): Tree
    decreases |p|
  {
    if p == [] then t.(data := t.data - {client})
    else match Child(t, p[0])
      case None => t
      case Some(child) => WithChild(t, p[0], Pruned(Remove(child, p[1..], client)))
  }

  function RemoveAll(t: Tree, client: Text): Tree {
    Tree(
      map s | s in t.children && !IsEmpty(RemoveAll(t.children[s], client)) :: RemoveAll(t.children[s], client),
      t.data - {client},
      t.retained)
  }

  function SetRetained(t: Tree, topic: seq<Text>, m: Option<Message>): Tree
    decreases |topic|
  {
    if topic == [] then t.(retained := m)
    else
      var child := SetRetained(ChildOrEmpty(t, Name(topic[0])), topic[1..], m);
      WithChild(t, Name(topic[0]), if m.None? then Pruned(child) else Some(child))
  }

  // ----- what a tree stores -----

  function At(t: Tree, p: Path): Option<Tree> {
    if p == [] then Some(t)
    else if Child(t, p[0]).None? then None
    else At(Child(t, p[0]).value, p[1..])
  }

  function Get(t: Tree, p: Path, client: Text): Option<FilterItem> {
    if At(t, p).Some? && client in At(t, p).value.data
    then Some(At(t, p).value.data[client])
    else None
  }

  function GetRetained(t: Tree, p: Path): Option<Message> {
    if At(t, p).Some? then At(t, p).value.retained else None
  }

  // ----- a look-up after an operation -----

  lemma GetRetainedChild(t: Tree, topic: seq<Text>)
    requires topic != []
    ensures GetRetained(t, Names(topic)) == GetRetained(ChildOrEmpty(t, Name(topic[0])), Names(topic[1..]))
  {
    EmptyStoresNothing(EMPTY, Names(topic[1..]), []);
    assert Names(topic)[1..] == Names(topic[1..]);
  }

  lemma WithChildTwice(t: Tree, s: Segment, c: Tree)
    ensures WithChild(WithChild(t, s, None), s, Some(c)) == WithChild(t, s, Some(c))
    ensures WithChild(WithChild(t, s, Some(c)), s, None) == WithChild(t, s, None)
  {
    assert (t.children - {s})[s := c] == t.children[s := c];
    assert t.children[s := c] - {s} == t.children - {s};
  }

  lemma GetChild(t: Tree, p: Path, client: Text)
    requires p != []
    ensures Get(t, p, client) == Get(ChildOrEmpty(t, p[0]), p[1..], client)
  {
    EmptyStoresNothing(EMPTY, p[1..], client);
  }

  lemma EmptyStoresNothing(t: Tree, p: Path, client: Text)
    requires IsEmpty(t)
    ensures Get(t, p, client).None? && GetRetained(t, p).None?
  {
  }

  /** A node's own data and retained message are seen at the node alone. */
  lemma OwnDataOnly(t: Tree, t': Tree, q: Path, d: Text)
    requires q != []
    requires Child(t, q[0]) == Child(t', q[0])
    ensures Get(t, q, d) == Get(t', q, d) && GetRetained(t, q) == GetRetained(t', q)
  {
  }

  /** A look-up in a tree one of whose children was replaced, or pruned if it became empty. */
  lemma GetWithChild(t: Tree, s: Segment, c: Tree, prune: bool, q: Path, d: Text)
    requires q != []
    ensures var t' := WithChild(t, s, if prune then Pruned(c) else Some(c));
            && Get(t', q, d) == (if q[0] == s then Get(c, q[1..], d) else Get(t, q, d))
            && GetRetained(t', q) == (if q[0] == s then GetRetained(c, q[1..]) else GetRetained(t, q))
  {
    if IsEmpty(c) {
      EmptyStoresNothing(c, q[1..], d);
    }
  }

  lemma {:induction false} GetInsert(t: Tree, p: Path, client: Text, item: FilterItem, q: Path, d: Text)
    ensures Get(Insert(t, p, client, item), q, d) ==
            if q == p && d == client then Some(item) else Get(t, q, d)
    ensures GetRetained(Insert(t, p, client, item), q) == GetRetained(t, q)
    decreases |p|
  {
    if p == [] {
      if q != [] {
        OwnDataOnly(Insert(t, p, client, item), t, q, d);
      }
    } else if q != [] {
      var child := ChildOrEmpty(t, p[0]);
      EmptyStoresNothing(EMPTY, q[1..], d);
      GetInsert(child, p[1..], client, item, q[1..], d);
      GetWithChild(t, p[0], Insert(child, p[1..], client, item), false, q, d);
      assert q == p <==> q[0] == p[0] && q[1..] == p[1..];
    }
  }

  lemma {:induction false} GetRemove(t: Tree, p: Path, client: Text, q: Path, d: Text)
    ensures Get(Remove(t, p, client), q, d) ==
            if q == p && d == client then None else Get(t, q, d)
    ensures GetRetained(Remove(t, p, client), q) == GetRetained(t, q)
    decreases |p|
  {
    if p == [] {
      if q != [] {
        OwnDataOnly(Remove(t, p, client), t, q, d);
      }
    } else if q != [] && Child(t, p[0]).Some? {
      var child := Child(t, p[0]).value;
      GetRemove(child, p[1..], client, q[1..], d);
      GetWithChild(t, p[0], Remove(child, p[1..], client), true, q, d);
      assert q == p <==> q[0] == p[0] && q[1..] == p[1..];
    }
  }

  lemma {:induction false} GetRemoveAll(t: Tree, client: Text, q: Path, d: Text)
    ensures Get(RemoveAll(t, client), q, d) == if d == client then None else Get(t, q, d)
    ensures GetRetained(RemoveAll(t, client), q) == GetRetained(t, q)
    decreases |q|
  {
    if q != [] && Child(t, q[0]).Some? {
      var child := Child(t, q[0]).value;
      GetRemoveAll(child, client, q[1..], d);
      var child' := RemoveAll(child, client);
      assert Child(RemoveAll(t, client), q[0]) == Pruned(child');
      if IsEmpty(child') {
        EmptyStoresNothing(child', q[1..], d);
      }
    }
  }

  lemma {:induction false} GetSetRetained(t: Tree, topic: seq<Text>, m: Option<Message>, q: Path, d: Text)
    ensures GetRetained(SetRetained(t, topic, m), q) == if q == Names(topic) then m else GetRetained(t, q)
    ensures Get(SetRetained(t, topic, m), q, d) == Get(t, q, d)
    decreases |topic|
  {
    if topic == [] {
      if q != [] {
        OwnDataOnly(SetRetained(t, topic, m), t, q, d);
      }
    } else if q != [] {
      var child := ChildOrEmpty(t, Name(topic[0]));
      EmptyStoresNothing(EMPTY, q[1..], d);
      GetSetRetained(child, topic[1..], m, q[1..], d);
      GetWithChild(t, Name(topic[0]), SetRetained(child, topic[1..], m), m.None?, q, d);
      assert Names(topic) == [Name(topic[0])] + Names(topic[1..]);
      assert q == Names(topic) <==> q[0] == Name(topic[0]) && q[1..] == Names(topic[1..]);
    }
  }
}
