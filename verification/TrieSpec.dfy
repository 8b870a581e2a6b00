/** What the whole trie stores: a flat table of subscriptions and one of retained messages. The
    trees of a trie, one for the plain subscriptions and one for each share group, show the two
    tables, and every operation on the trees is an operation on the tables. */
module TrieSpec {
  import opened Types
  import opened Messages
  import opened TreeSpec
  import opened TreeShape
  import opened TreeMatch
  import FilterUtil

  datatype SubKey = SubKey(share: Option<Text>, path: Path, client: Text)

  type Subs = map<SubKey, FilterItem>

  type Retained = map<Topic, Message>

  /** The trees of a trie; that of the plain subscriptions, which also holds the retained
      messages, under None. */
  type Forest = map<Option<Text>, Tree>

  function Lookup<K, V>(m: map<K, V>, k: K): Option<V> {
    if k in m then Some(m[k]) else None
  }

  ghost predicate ShowsSubs(f: Forest, subs: Subs) {
    && (forall g, p, c | g in f :: Get(f[g], p, c) == Lookup(subs, SubKey(g, p, c)))
    && (forall k <- subs :: k.share in f && k.path != [])
  }

  ghost predicate ShowsRetained(f: Forest, retained: Retained) {
    && None in f
    && (forall topic :: GetRetained(f[None], Names(topic)) == Lookup(retained, topic))
    && (forall p | GetRetained(f[None], p).Some? :: exists topic :: p == Names(topic))
    && (forall g, p | g in f && g != None :: GetRetained(f[g], p).None?)
    && [] !in retained
  }

  ghost predicate CanonicalForest(f: Forest) {
    forall g <- f :: Canonical(f[g])
  }

  /** The trees are canonical and show the tables. */
  ghost predicate Shows(f: Forest, subs: Subs, retained: Retained) {
    ShowsSubs(f, subs) && ShowsRetained(f, retained) && CanonicalForest(f)
  }

  function TreeOf(f: Forest, g: Option<Text>): Tree {
    if g in f then f[g] else EMPTY
  }

  const NOTHING: Forest := map[None := EMPTY]

  lemma NothingShows()
    ensures Shows(NOTHING, map[], map[])
  {
    forall p, c ensures Get(EMPTY, p, c).None? && GetRetained(EMPTY, p).None? {
      EmptyStoresNothing(EMPTY, p, c);
    }
  }

  /** Names of topics are told apart by their levels. */
  lemma NamesInjective(a: Topic, b: Topic)
    requires Names(a) == Names(b)
    ensures a == b
  {
    assert |Names(a)| == |a| && |Names(b)| == |b|;
    forall i | 0 <= i < |a| ensures a[i] == b[i] {
      assert Names(a)[i] == Name(a[i]) && Names(b)[i] == Name(b[i]);
    }
  }

  lemma SegmentsInjective(a: seq<Text>, b: seq<Text>)
    requires Segments(a) == Segments(b)
    ensures a == b
  {
    forall i | 0 <= i < |a| ensures a[i] == b[i] {
      assert Segments(a)[i] == SegmentOf(a[i]) && Segments(b)[i] == SegmentOf(b[i]);
    }
  }

  /** Different filters have different keys. */
  lemma PathOfInjective(a: Text, b: Text)
    requires PathOf(a) == PathOf(b)
    ensures a == b
  {
    SegmentsInjective(FilterUtil.Split(a), FilterUtil.Split(b));
    FilterUtil.SplitInjective(a, b);
  }

  // ----- subscribe, unsubscribe -----

  /** A tree that keeps its retained messages, and its subscriptions but for one key, is a step of
      the table that changes that key. */
  lemma ShowsStep(f: Forest, subs: Subs, retained: Retained, g: Option<Text>, t: Tree, subs': Subs)
    requires Shows(f, subs, retained) && Canonical(t)
    requires forall p :: GetRetained(t, p) == GetRetained(TreeOf(f, g), p)
    requires forall p, c :: Get(t, p, c) == Lookup(subs', SubKey(g, p, c))
    requires forall k: SubKey | k.share != g :: Lookup(subs', k) == Lookup(subs, k)
    requires forall k <- subs' :: k.path != []
    ensures Shows(f[g := t], subs', retained)
  {
    var f' := f[g := t];
    forall h, p, c | h in f' ensures Get(f'[h], p, c) == Lookup(subs', SubKey(h, p, c)) {
      if h != g {
        assert Get(f[h], p, c) == Lookup(subs, SubKey(h, p, c));
      }
    }
    forall k | k in subs' ensures k.share in f' {
      if k.share != g {
        assert Lookup(subs', k) == Lookup(subs, k);
      }
    }
    forall h, p | h in f' && h != None ensures GetRetained(f'[h], p).None? {
      ShowsStepRetained(f, subs, retained, g, t, h, p);
    }
  }

  lemma ShowsStepRetained(f: Forest, subs: Subs, retained: Retained, g: Option<Text>, t: Tree, h: Option<Text>, p: Path)
    requires Shows(f, subs, retained) && h in f[g := t] && h != None
    requires GetRetained(t, p) == GetRetained(TreeOf(f, g), p)
    ensures GetRetained(f[g := t][h], p).None?
  {
    EmptyStoresNothing(EMPTY, p, []);
  }

  lemma TreeOfShows(f: Forest, subs: Subs, retained: Retained, g: Option<Text>, p: Path, c: Text)
    requires Shows(f, subs, retained)
    ensures Get(TreeOf(f, g), p, c) == Lookup(subs, SubKey(g, p, c))
    ensures Canonical(TreeOf(f, g))
  {
    EmptyStoresNothing(EMPTY, p, c);
  }

  lemma SubscribeShows(f: Forest, subs: Subs, retained: Retained, g: Option<Text>, p: Path, c: Text, item: FilterItem)
    requires Shows(f, subs, retained) && p != []
    ensures Shows(f[g := Insert(TreeOf(f, g), p, c, item)], subs[SubKey(g, p, c) := item], retained)
  {
    var t := Insert(TreeOf(f, g), p, c, item);
    var subs' := subs[SubKey(g, p, c) := item];
    TreeOfShows(f, subs, retained, g, p, c);
    InsertCanonical(TreeOf(f, g), p, c, item);
    forall q, d ensures Get(t, q, d) == Lookup(subs', SubKey(g, q, d)) {
      TreeOfShows(f, subs, retained, g, q, d);
      GetInsert(TreeOf(f, g), p, c, item, q, d);
    }
    forall q ensures GetRetained(t, q) == GetRetained(TreeOf(f, g), q) {
      GetInsert(TreeOf(f, g), p, c, item, q, c);
    }
    ShowsStep(f, subs, retained, g, t, subs');
  }

  lemma UnsubscribeShows(f: Forest, subs: Subs, retained: Retained, g: Option<Text>, p: Path, c: Text)
    requires Shows(f, subs, retained)
    ensures Shows(f[g := Remove(TreeOf(f, g), p, c)], subs - {SubKey(g, p, c)}, retained)
  {
    var t := Remove(TreeOf(f, g), p, c);
    var subs' := subs - {SubKey(g, p, c)};
    TreeOfShows(f, subs, retained, g, p, c);
    RemoveCanonical(TreeOf(f, g), p, c);
    forall q, d ensures Get(t, q, d) == Lookup(subs', SubKey(g, q, d)) {
      TreeOfShows(f, subs, retained, g, q, d);
      GetRemove(TreeOf(f, g), p, c, q, d);
    }
    forall q ensures GetRetained(t, q) == GetRetained(TreeOf(f, g), q) {
      GetRemove(TreeOf(f, g), p, c, q, c);
    }
    ShowsStep(f, subs, retained, g, t, subs');
  }

  // ----- unsubscribe_all -----

  function WithoutClient(subs: Subs, c: Text): Subs {
    map k | k in subs && k.client != c :: subs[k]
  }

  /** The client is gone from some of the trees. */
  function WithoutClientIn(subs: Subs, c: Text, groups: set<Option<Text>>): Subs {
    map k | k in subs && !(k.client == c && k.share in groups) :: subs[k]
  }

  lemma RemoveAllShows(f: Forest, subs: Subs, retained: Retained, g: Option<Text>, c: Text)
    requires Shows(f, subs, retained) && g in f
    ensures Shows(f[g := RemoveAll(f[g], c)], WithoutClientIn(subs, c, {g}), retained)
  {
    var t := RemoveAll(f[g], c);
    var subs' := WithoutClientIn(subs, c, {g});
    RemoveAllCanonical(f[g], c);
    forall q, d ensures Get(t, q, d) == Lookup(subs', SubKey(g, q, d)) {
      TreeOfShows(f, subs, retained, g, q, d);
      GetRemoveAll(f[g], c, q, d);
    }
    forall q ensures GetRetained(t, q) == GetRetained(f[g], q) {
      GetRemoveAll(f[g], c, q, c);
    }
    ShowsStep(f, subs, retained, g, t, subs');
  }

  lemma {:induction false} KeysSize(g: Option<Text>, c: Text, paths: set<Path>)
    ensures |set p <- paths :: SubKey(g, p, c)| == |paths|
  {
    if paths == {} {
    } else {
      var p :| p in paths;
      KeysSize(g, c, paths - {p});
      assert (set q <- paths :: SubKey(g, q, c)) == (set q <- paths - {p} :: SubKey(g, q, c)) + {SubKey(g, p, c)};
    }
  }

  /** What the walk of one tree counts is what the table loses. */
  lemma RemoveAllCount(f: Forest, subs: Subs, retained: Retained, g: Option<Text>, c: Text)
    requires Shows(f, subs, retained) && g in f
    ensures |subs| == |WithoutClientIn(subs, c, {g})| + |ClientPaths(f[g], c)|
  {
    var gone := set p <- ClientPaths(f[g], c) :: SubKey(g, p, c);
    KeysSize(g, c, ClientPaths(f[g], c));
    forall k ensures k in gone <==> k in subs && k.client == c && k.share == g {
      ClientKeyShows(f, subs, retained, g, c, k);
    }
    KeysLeft(subs, g, c, gone);
    LeftOver(subs, WithoutClientIn(subs, c, {g}), gone);
  }

  lemma KeysLeft(subs: Subs, g: Option<Text>, c: Text, gone: set<SubKey>)
    requires forall k :: k in gone <==> k in subs && k.client == c && k.share == g
    ensures gone <= subs.Keys && WithoutClientIn(subs, c, {g}).Keys == subs.Keys - gone
  {
  }

  lemma ClientKeyShows(f: Forest, subs: Subs, retained: Retained, g: Option<Text>, c: Text, k: SubKey)
    requires Shows(f, subs, retained) && g in f
    ensures k in (set p <- ClientPaths(f[g], c) :: SubKey(g, p, c)) <==> k in subs && k.client == c && k.share == g
  {
    ClientPathsExact(f[g], c, k.path);
    assert Get(f[g], k.path, c) == Lookup(subs, SubKey(g, k.path, c));
  }

  lemma LeftOver<K, V>(all: map<K, V>, left: map<K, V>, gone: set<K>)
    requires gone <= all.Keys && left.Keys == all.Keys - gone
    ensures |all| == |left| + |gone|
  {
    assert |all| == |all.Keys| && |left| == |left.Keys|;
    assert all.Keys == left.Keys + gone;
  }

  lemma WithoutClientInStep(subs: Subs, c: Text, groups: set<Option<Text>>, g: Option<Text>)
    ensures WithoutClientIn(WithoutClientIn(subs, c, groups), c, {g}) == WithoutClientIn(subs, c, groups + {g})
  {
  }

  lemma WithoutClientInAll(f: Forest, subs: Subs, retained: Retained, c: Text)
    requires Shows(f, subs, retained)
    ensures WithoutClientIn(subs, c, {}) == subs
    ensures WithoutClientIn(subs, c, f.Keys) == WithoutClient(subs, c)
  {
  }

  /** A forest from which a client was removed in some of the trees, one after the other. */
  function RemoveRoots(f: Forest, c: Text, order: seq<Option<Text>>): Forest {
    if order == [] then f
    else
      var g := order[|order| - 1];
      RemoveRoots(f, c, order[..|order| - 1])[g := RemoveAll(TreeOf(f, g), c)]
  }

  function CountRoots(f: Forest, c: Text, order: seq<Option<Text>>): nat {
    if order == [] then 0
    else
      CountRoots(f, c, order[..|order| - 1]) + |ClientPaths(TreeOf(f, order[|order| - 1]), c)|
  }

  lemma {:induction false} RemoveRootsAt(f: Forest, c: Text, order: seq<Option<Text>>)
    requires forall g <- order :: g in f
    ensures RemoveRoots(f, c, order).Keys == f.Keys
    ensures forall g <- f :: RemoveRoots(f, c, order)[g] == if g in order then RemoveAll(f[g], c) else f[g]
  {
    if order != [] {
      RemoveRootsAt(f, c, order[..|order| - 1]);
      assert order == order[..|order| - 1] + [order[|order| - 1]];
    }
  }

  /** One more tree, still as it was. */
  lemma RemoveRootsStep(f: Forest, c: Text, todo: set<Option<Text>>, order: seq<Option<Text>>, g: Option<Text>)
    requires Taken(f.Keys, todo, order) && g in todo
    ensures Taken(f.Keys, todo - {g}, order + [g])
    ensures TreeOf(RemoveRoots(f, c, order), g) == TreeOf(f, g)
    ensures RemoveRoots(f, c, order + [g]) == RemoveRoots(f, c, order)[g := RemoveAll(TreeOf(f, g), c)]
    ensures CountRoots(f, c, order + [g]) == CountRoots(f, c, order) + |ClientPaths(TreeOf(f, g), c)|
  {
    RemoveRootsAt(f, c, order);
    assert (order + [g])[..|order|] == order;
  }

  lemma RemoveOneMore(f: Forest, subs: Subs, retained: Retained, g: Option<Text>, c: Text)
    requires Shows(f, subs, retained) && g in f
    ensures Shows(f[g := RemoveAll(f[g], c)], WithoutClientIn(subs, c, {g}), retained)
    ensures |subs| == |WithoutClientIn(subs, c, {g})| + |ClientPaths(f[g], c)|
  {
    RemoveAllShows(f, subs, retained, g, c);
    RemoveAllCount(f, subs, retained, g, c);
  }

  function Groups(order: seq<Option<Text>>): (groups: set<Option<Text>>)
    ensures forall g :: g in groups <==> g in order
  {
    if order == [] then {} else Groups(order[..|order| - 1]) + {order[|order| - 1]}
  }

  /** However the trees are ordered, the tables lose the client in those that were taken, and the
      count is what they lose. */
  lemma {:induction false} RemoveRootsShows(f: Forest, subs: Subs, retained: Retained, c: Text, order: seq<Option<Text>>)
    requires Shows(f, subs, retained) && Distinct(order) && forall g <- order :: g in f
    ensures Shows(RemoveRoots(f, c, order), WithoutClientIn(subs, c, Groups(order)), retained)
    ensures |subs| == |WithoutClientIn(subs, c, Groups(order))| + CountRoots(f, c, order)
  {
    if order == [] {
      WithoutClientInAll(f, subs, retained, c);
    } else {
      var g, rest := order[|order| - 1], order[..|order| - 1];
      RemoveRootsShows(f, subs, retained, c, rest);
      RemoveRootsAt(f, c, rest);
      assert g !in rest && TreeOf(f, g) == RemoveRoots(f, c, rest)[g];
      RemoveOneMore(RemoveRoots(f, c, rest), WithoutClientIn(subs, c, Groups(rest)), retained, g, c);
      WithoutClientInStep(subs, c, Groups(rest), g);
    }
  }

  // ----- retained messages -----

  function RetainedAfter(retained: Retained, topic: Topic, m: Option<Message>): Retained {
    if m.Some? then retained[topic := m.value] else retained - {topic}
  }

  lemma SetRetainedShows(f: Forest, subs: Subs, retained: Retained, topic: Topic, m: Option<Message>)
    requires Shows(f, subs, retained) && topic != []
    ensures Shows(f[None := SetRetained(f[None], topic, m)], subs, RetainedAfter(retained, topic, m))
  {
    var t := SetRetained(f[None], topic, m);
    var f' := f[None := t];
    var retained' := RetainedAfter(retained, topic, m);
    SetRetainedCanonical(f[None], topic, m);
    forall q, d ensures Get(t, q, d) == Get(f[None], q, d) {
      GetSetRetained(f[None], topic, m, q, d);
    }
    forall q ensures GetRetained(t, q) == if q == Names(topic) then m else GetRetained(f[None], q) {
      GetSetRetained(f[None], topic, m, q, []);
    }
    forall x ensures GetRetained(t, Names(x)) == Lookup(retained', x) {
      if Names(x) == Names(topic) {
        NamesInjective(x, topic);
      }
      assert GetRetained(f[None], Names(x)) == Lookup(retained, x);
    }
    assert forall g, p, c | g in f' :: Get(f'[g], p, c) == Get(f[g], p, c);
  }

  // ----- what the tables fix -----

  /** Two tries with the same tables have the same main tree, node by node, and the same tree for
      every share group that has a subscription. */
  lemma ShowsUnique(f: Forest, f': Forest, subs: Subs, retained: Retained)
    requires Shows(f, subs, retained) && Shows(f', subs, retained)
    ensures f[None] == f'[None]
    ensures forall k <- subs :: f[k.share] == f'[k.share]
  {
    forall p ensures GetRetained(f[None], p) == GetRetained(f'[None], p) {
      if topic :| p == Names(topic) {
        assert GetRetained(f[None], Names(topic)) == GetRetained(f'[None], Names(topic));
      } else {
        assert GetRetained(f[None], p).None? && GetRetained(f'[None], p).None?;
      }
    }
    forall g | g in f && g in f' ensures f[g] == f'[g] {
      assert forall p, c :: Get(f[g], p, c) == Get(f'[g], p, c);
      assert forall p :: GetRetained(f[g], p) == GetRetained(f'[g], p);
      CanonicalUnique(f[g], f'[g]);
    }
  }

  /** A tree is empty exactly when the tables have nothing for it. */
  lemma EmptyIffNothing(f: Forest, subs: Subs, retained: Retained, g: Option<Text>)
    requires Shows(f, subs, retained) && g in f
    ensures IsEmpty(f[g]) <==> (forall k <- subs :: k.share != g) && (g == None ==> retained == map[])
  {
    if IsEmpty(f[g]) {
      forall k | k in subs ensures k.share != g {
        EmptyStoresNothing(f[g], k.path, k.client);
        assert k == SubKey(k.share, k.path, k.client);
      }
      if g == None {
        forall topic ensures topic !in retained {
          EmptyStoresNothing(f[g], Names(topic), []);
        }
      }
    } else {
      NonEmptyIsLive(f[g]);
      if p, c :| Get(f[g], p, c).Some? {
        assert SubKey(g, p, c) in subs;
      } else {
        var p :| GetRetained(f[g], p).Some?;
        var topic :| p == Names(topic);
        assert topic in retained;
      }
    }
  }

  // ----- helpers -----

  lemma SizeWithout<K, V>(m: map<K, V>, k: K)
    ensures |m - {k}| == if k in m then |m| - 1 else |m|
  {
    assert (m - {k}).Keys == m.Keys - {k};
    assert |m - {k}| == |(m - {k}).Keys| && |m| == |m.Keys|;
  }

  lemma LentAndGiven(f: Forest, g: Option<Text>, t: Tree)
    ensures (f - {g})[g := t] == f[g := t]
  {
  }
}
