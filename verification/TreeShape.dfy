/** The shape of a trie: no operation leaves a dead branch behind, so a tree is fixed by what it
    stores; and how many subscriptions of one client a tree holds. */
module TreeShape {
  import opened Types
  import opened Messages
  import opened TreeSpec

  /** No child is empty, anywhere below the node. */
  ghost predicate Canonical(t: Tree) {
    forall s :: Child(t, s).Some? ==> !IsEmpty(Child(t, s).value) && Canonical(Child(t, s).value)
  }

  /** Something is stored at the node or below it. */
  ghost predicate Live(t: Tree) {
    || (exists p, client :: Get(t, p, client).Some?)
    || (exists p :: GetRetained(t, p).Some?)
  }

  // ----- every operation keeps a tree canonical -----

  lemma CanonicalWithChild(t: Tree, s: Segment, c: Option<Tree>)
    requires Canonical(t)
    requires c.Some? ==> !IsEmpty(c.value) && Canonical(c.value)
    ensures Canonical(WithChild(t, s, c))
  {
    assert forall s' :: Child(WithChild(t, s, c), s') == if s' == s then c else Child(t, s');
  }

  lemma CanonicalOwnData(t: Tree, t': Tree)
    requires Canonical(t)
    requires forall s :: Child(t', s) == Child(t, s)
    ensures Canonical(t')
  {
  }

  lemma {:induction false} InsertCanonical(t: Tree, p: Path, client: Text, item: FilterItem)
    requires Canonical(t)
    ensures Canonical(Insert(t, p, client, item)) && !IsEmpty(Insert(t, p, client, item))
    decreases |p|
  {
    var t' := Insert(t, p, client, item);
    if p == [] {
      CanonicalOwnData(t, t');
      assert client in t'.data;
    } else {
      InsertCanonical(ChildOrEmpty(t, p[0]), p[1..], client, item);
      CanonicalWithChild(t, p[0], Child(t', p[0]));
      assert Child(t', p[0]).Some?;
    }
  }

  lemma {:induction false} RemoveCanonical(t: Tree, p: Path, client: Text)
    requires Canonical(t)
    ensures Canonical(Remove(t, p, client))
    decreases |p|
  {
    if p == [] {
      CanonicalOwnData(t, Remove(t, p, client));
    } else if Child(t, p[0]).Some? {
      var child := Child(t, p[0]).value;
      RemoveCanonical(child, p[1..], client);
      CanonicalWithChild(t, p[0], Pruned(Remove(child, p[1..], client)));
    }
  }

  lemma ChildOfRemoveAll(t: Tree, client: Text, s: Segment)
    ensures Child(RemoveAll(t, client), s) ==
            if Child(t, s).Some? then Pruned(RemoveAll(Child(t, s).value, client)) else None
  {
  }

  lemma {:induction false} RemoveAllCanonical(t: Tree, client: Text)
    ensures Canonical(RemoveAll(t, client))
  {
    var t' := RemoveAll(t, client);
    forall s | Child(t', s).Some?
      ensures !IsEmpty(Child(t', s).value) && Canonical(Child(t', s).value)
    {
      ChildOfRemoveAll(t, client, s);
      RemoveAllCanonical(Child(t, s).value, client);
    }
  }

  lemma {:induction false} SetRetainedCanonical(t: Tree, topic: seq<Text>, m: Option<Message>)
    requires Canonical(t)
    ensures Canonical(SetRetained(t, topic, m))
    ensures m.Some? ==> !IsEmpty(SetRetained(t, topic, m))
    decreases |topic|
  {
    var t' := SetRetained(t, topic, m);
    if topic == [] {
      CanonicalOwnData(t, t');
    } else {
      var s := Name(topic[0]);
      SetRetainedCanonical(ChildOrEmpty(t, s), topic[1..], m);
      CanonicalWithChild(t, s, Child(t', s));
      assert m.Some? ==> Child(t', s).Some?;
    }
  }

  // ----- what being canonical means -----

  lemma LiveBelow(t: Tree, s: Segment)
    requires Child(t, s).Some? && Live(Child(t, s).value)
    ensures Live(t)
  {
    var child := Child(t, s).value;
    if p, client :| Get(child, p, client).Some? {
      assert ([s] + p)[1..] == p;
      assert Get(t, [s] + p, client).Some?;
    } else {
      var p :| GetRetained(child, p).Some?;
      assert ([s] + p)[1..] == p;
      assert GetRetained(t, [s] + p).Some?;
    }
  }

  lemma {:induction false} NonEmptyIsLive(t: Tree)
    requires Canonical(t) && !IsEmpty(t)
    ensures Live(t)
  {
    if client :| client in t.data {
      assert Get(t, [], client).Some?;
    } else if t.retained.Some? {
      assert GetRetained(t, []).Some?;
    } else {
      var s :| s in t.children;
      NonEmptyIsLive(Child(t, s).value);
      LiveBelow(t, s);
    }
  }

  lemma LiveIsNonEmpty(t: Tree)
    requires Live(t)
    ensures !IsEmpty(t)
  {
    if p, client :| Get(t, p, client).Some? {
    } else {
      var p :| GetRetained(t, p).Some?;
    }
  }

  /** Every node below the root has something stored in it or below it. */
  ghost predicate BranchesLive(t: Tree) {
    forall p: Path :: p != [] && At(t, p).Some? ==> Live(At(t, p).value)
  }

  lemma CanonicalIffLive(t: Tree)
    ensures Canonical(t) <==> BranchesLive(t)
  {
    if Canonical(t) {
      forall p: Path | p != [] && At(t, p).Some? ensures Live(At(t, p).value) {
        DescendantLive(t, p);
      }
    }
    if BranchesLive(t) {
      LiveIsCanonical(t);
    }
  }

  lemma {:induction false} LiveIsCanonical(t: Tree)
    requires BranchesLive(t)
    ensures Canonical(t)
  {
    forall s | Child(t, s).Some?
      ensures !IsEmpty(Child(t, s).value) && Canonical(Child(t, s).value)
    {
      var child := Child(t, s).value;
      assert [s][1..] == [] && At(t, [s]) == Some(child);
      LiveIsNonEmpty(child);
      forall p: Path | p != [] && At(child, p).Some? ensures Live(At(child, p).value) {
        assert ([s] + p)[1..] == p;
        assert At(t, [s] + p) == At(child, p);
      }
      LiveIsCanonical(child);
    }
  }

  lemma {:induction false} DescendantLive(t: Tree, p: Path)
    requires Canonical(t) && p != [] && At(t, p).Some?
    ensures Live(At(t, p).value)
    decreases |p|
  {
    var child := Child(t, p[0]).value;
    if |p| == 1 {
      NonEmptyIsLive(child);
    } else {
      DescendantLive(child, p[1..]);
    }
  }

  /** Two trees store the same subscriptions and the same retained messages. */
  ghost predicate SameContents(a: Tree, b: Tree) {
    && (forall p, client :: Get(a, p, client) == Get(b, p, client))
    && (forall p :: GetRetained(a, p) == GetRetained(b, p))
  }

  lemma SameContentsBelow(a: Tree, b: Tree, s: Segment)
    requires SameContents(a, b) && Child(a, s).Some? && Child(b, s).Some?
    ensures SameContents(Child(a, s).value, Child(b, s).value)
  {
    var a', b' := Child(a, s).value, Child(b, s).value;
    forall p: Path, client ensures Get(a', p, client) == Get(b', p, client)
    {
      assert ([s] + p)[1..] == p;
      assert Get(a, [s] + p, client) == Get(b, [s] + p, client);
    }
    forall p: Path ensures GetRetained(a', p) == GetRetained(b', p)
    {
      assert ([s] + p)[1..] == p;
      assert GetRetained(a, [s] + p) == GetRetained(b, [s] + p);
    }
  }

  lemma SameContentsSameChildren(a: Tree, b: Tree, s: Segment)
    requires Canonical(a) && SameContents(a, b) && Child(a, s).Some?
    ensures Child(b, s).Some?
  {
    var child := Child(a, s).value;
    NonEmptyIsLive(child);
    if p, client :| Get(child, p, client).Some? {
      assert ([s] + p)[1..] == p;
      assert Get(a, [s] + p, client).Some?;
      assert Get(b, [s] + p, client).Some?;
    } else {
      var p :| GetRetained(child, p).Some?;
      assert ([s] + p)[1..] == p;
      assert GetRetained(a, [s] + p).Some?;
      assert GetRetained(b, [s] + p).Some?;
    }
  }

  /** A canonical tree is fixed, node by node, by what it stores. */
  lemma {:induction false} CanonicalUnique(a: Tree, b: Tree)
    requires Canonical(a) && Canonical(b) && SameContents(a, b)
    ensures a == b
  {
    assert GetRetained(a, []) == GetRetained(b, []);
    assert forall client :: Get(a, [], client) == Get(b, [], client);
    assert forall client :: client in a.data <==> Get(a, [], client).Some?;
    assert a.data == b.data;
    forall s ensures Child(a, s) == Child(b, s) {
      if Child(a, s).Some? || Child(b, s).Some? {
        if Child(a, s).Some? {
          SameContentsSameChildren(a, b, s);
        } else {
          SameContentsSameChildren(b, a, s);
        }
        SameContentsBelow(a, b, s);
        CanonicalUnique(Child(a, s).value, Child(b, s).value);
      }
    }
    assert forall s :: s in a.children <==> Child(a, s).Some?;
    assert a.children == b.children;
  }

  // ----- the subscriptions of one client -----

  /** The paths at which a client is subscribed. */
  function ClientPaths(t: Tree, client: Text): set<Path> {
    (if client in t.data then {[]} else {}) +
    set s, p | s in t.children && p in ClientPaths(t.children[s], client) :: [s] + p
  }

  lemma {:induction false} ClientPathsExact(t: Tree, client: Text, p: Path)
    ensures p in ClientPaths(t, client) <==> Get(t, p, client).Some?
    decreases |p|
  {
    if p != [] {
      assert p == [p[0]] + p[1..];
      if Child(t, p[0]).Some? {
        ClientPathsExact(Child(t, p[0]).value, client, p[1..]);
      }
      forall s, q | s in t.children && q in ClientPaths(t.children[s], client) && p == [s] + q
        ensures p[0] == s && p[1..] == q
      {
      }
    }
  }

  /** Those of them that lie below some of the children. */
  function PathsBelow(t: Tree, client: Text, below: set<Segment>): set<Path>
    requires below <= t.children.Keys
  {
    set s, p | s in below && p in ClientPaths(t.children[s], client) :: [s] + p
  }

  lemma {:induction false} PrefixSize(s: Segment, paths: set<Path>)
    ensures |set p <- paths :: [s] + p| == |paths|
  {
    if paths == {} {
    } else {
      var p :| p in paths;
      PrefixSize(s, paths - {p});
      var rest := set q <- paths - {p} :: [s] + q;
      assert (set q <- paths :: [s] + q) == rest + {[s] + p};
      assert forall q <- paths :: ([s] + q)[1..] == q;
    }
  }

  /** The count over one more child. */
  lemma PathsBelowStep(t: Tree, client: Text, below: set<Segment>, s: Segment)
    requires below <= t.children.Keys && s in t.children && s !in below
    ensures |PathsBelow(t, client, below + {s})| ==
            |PathsBelow(t, client, below)| + |ClientPaths(t.children[s], client)|
  {
    var more := set p <- ClientPaths(t.children[s], client) :: [s] + p;
    PrefixSize(s, ClientPaths(t.children[s], client));
    PathsBelowMore(t, client, below, s);
    forall p | p in PathsBelow(t, client, below) ensures p !in more {
      assert p[0] in below;
    }
  }

  lemma PathsBelowMore(t: Tree, client: Text, below: set<Segment>, s: Segment)
    requires below <= t.children.Keys && s in t.children
    ensures PathsBelow(t, client, below + {s}) ==
            PathsBelow(t, client, below) + set p <- ClientPaths(t.children[s], client) :: [s] + p
  {
  }

  /** The count at the node, and below it. */
  lemma ClientPathsSize(t: Tree, client: Text)
    ensures |ClientPaths(t, client)| ==
            (if client in t.data then 1 else 0) + |PathsBelow(t, client, t.children.Keys)|
  {
    var below := PathsBelow(t, client, t.children.Keys);
    assert ClientPaths(t, client) == (if client in t.data then {[]} else {}) + below;
    assert [] !in below;
  }

  // ----- the steps of the walk that removes a client -----

  predicate Distinct<T(==)>(xs: seq<T>) {
    forall i, j | 0 <= i < j < |xs| :: xs[i] != xs[j]
  }

  /** A tree from which a client was removed below some of the children, one after the other. */
  function RemoveEach(t: Tree, client: Text, order: seq<Segment>): Tree {
    if order == [] then t
    else
      var s := order[|order| - 1];
      WithChild(RemoveEach(t, client, order[..|order| - 1]), s, Pruned(RemoveAll(ChildOrEmpty(t, s), client)))
  }

  function CountEach(t: Tree, client: Text, order: seq<Segment>): nat {
    if order == [] then 0
    else
      var s := order[|order| - 1];
      CountEach(t, client, order[..|order| - 1]) + |ClientPaths(ChildOrEmpty(t, s), client)|
  }

  lemma {:induction false} RemoveEachChild(t: Tree, client: Text, order: seq<Segment>, s: Segment)
    ensures Child(RemoveEach(t, client, order), s) ==
            if s in order then Pruned(RemoveAll(ChildOrEmpty(t, s), client)) else Child(t, s)
    ensures RemoveEach(t, client, order).data == t.data && RemoveEach(t, client, order).retained == t.retained
  {
    if order != [] {
      var rest, last := order[..|order| - 1], order[|order| - 1];
      RemoveEachChild(t, client, rest, s);
      InExtended(rest, last, order, s);
      ChildOfWithChild(RemoveEach(t, client, rest), last, Pruned(RemoveAll(ChildOrEmpty(t, last), client)), s);
    }
  }

  lemma InExtended(rest: seq<Segment>, last: Segment, order: seq<Segment>, s: Segment)
    requires order != [] && rest == order[..|order| - 1] && last == order[|order| - 1]
    ensures s in order <==> s in rest || s == last
  {
    assert order == rest + [last];
  }

  lemma ChildOfWithChild(t: Tree, s: Segment, c: Option<Tree>, r: Segment)
    ensures Child(WithChild(t, s, c), r) == if r == s then c else Child(t, r)
    ensures WithChild(t, s, c).data == t.data && WithChild(t, s, c).retained == t.retained
  {
  }

  /** Of all keys, some are still to do and the others were taken, each once, in this order. */
  ghost predicate Taken<K(!new)>(all: set<K>, todo: set<K>, order: seq<K>) {
    && todo <= all && Distinct(order)
    && (forall s | s in all :: s in todo <==> s !in order)
    && (forall s | s in order :: s in all)
  }

  /** One more child, still as it was. */
  lemma RemoveEachStep(t: Tree, client: Text, todo: set<Segment>, order: seq<Segment>, s: Segment)
    requires Taken(t.children.Keys, todo, order) && s in todo
    ensures Taken(t.children.Keys, todo - {s}, order + [s])
    ensures s in RemoveEach(t, client, order).children
    ensures RemoveEach(t, client, order).children[s] == t.children[s]
    ensures RemoveEach(t, client, order + [s]) ==
            WithChild(RemoveEach(t, client, order), s, Pruned(RemoveAll(t.children[s], client)))
    ensures CountEach(t, client, order + [s]) == CountEach(t, client, order) + |ClientPaths(t.children[s], client)|
  {
    RemoveEachChild(t, client, order, s);
    assert (order + [s])[..|order|] == order;
  }

  lemma {:induction false} CountEachIsSize(t: Tree, client: Text, order: seq<Segment>)
    requires Distinct(order) && forall s <- order :: s in t.children
    ensures CountEach(t, client, order) == |PathsBelow(t, client, (set s <- order))|
  {
    if order != [] {
      var s, rest := order[|order| - 1], order[..|order| - 1];
      assert order == rest + [s];
      CountEachIsSize(t, client, rest);
      Elements(rest, s);
      PathsBelowStep(t, client, (set r <- rest), s);
    } else {
      assert PathsBelow(t, client, {}) == {};
    }
  }

  lemma Elements(rest: seq<Segment>, s: Segment)
    ensures (set r <- rest + [s]) == (set r <- rest) + {s}
  {
  }

  lemma CountEachAll(t: Tree, client: Text, order: seq<Segment>)
    requires Taken(t.children.Keys, {}, order) && client !in t.data
    ensures CountEach(t, client, order) == |ClientPaths(t, client)|
  {
    CountEachIsSize(t, client, order);
    assert (set s <- order) == t.children.Keys;
    ClientPathsSize(t, client);
  }

  /** Below all children and at the node: the client is gone, and every subscription counted once. */
  lemma RemoveEachAll(t: Tree, client: Text, order: seq<Segment>)
    requires Taken(t.children.Keys, {}, order) && client !in t.data
    ensures RemoveEach(t, client, order) == RemoveAll(t, client)
    ensures CountEach(t, client, order) == |ClientPaths(t, client)|
  {
    CountEachAll(t, client, order);
    RemoveEachChild(t, client, order, Hash);
    RemoveEachChildren(t, client, order);
    SameChildren(RemoveEach(t, client, order), RemoveAll(t, client));
    assert t.data - {client} == t.data;
  }

  lemma RemoveEachChildren(t: Tree, client: Text, order: seq<Segment>)
    requires Taken(t.children.Keys, {}, order)
    ensures forall s :: Child(RemoveEach(t, client, order), s) == Child(RemoveAll(t, client), s)
  {
    forall s ensures Child(RemoveEach(t, client, order), s) == Child(RemoveAll(t, client), s) {
      RemoveEachChild(t, client, order, s);
    }
  }

  lemma SameChildren(a: Tree, b: Tree)
    requires forall s :: Child(a, s) == Child(b, s)
    ensures a.children == b.children
  {
    forall s ensures s in a.children <==> s in b.children {
      assert Child(a, s) == Child(b, s);
    }
    forall s | s in a.children ensures a.children[s] == b.children[s] {
      assert Child(a, s) == Child(b, s);
    }
  }

  /** Removing a client's own data first changes neither the result nor the count. */
  lemma RemoveAllTwice(t: Tree, client: Text)
    ensures RemoveAll(t.(data := t.data - {client}), client) == RemoveAll(t, client)
    ensures |ClientPaths(t, client)| ==
            (if client in t.data then 1 else 0) + |ClientPaths(t.(data := t.data - {client}), client)|
  {
    var t' := t.(data := t.data - {client});
    assert t'.data - {client} == t.data - {client};
    ClientPathsSize(t, client);
    ClientPathsSize(t', client);
    assert PathsBelow(t, client, t.children.Keys) == PathsBelow(t', client, t.children.Keys);
  }
}
