/** Matching: which filters a topic matches, which retained topics a filter matches, and what
    the two walks of the trie collect. */
module TreeMatch {
  import opened Types
  import opened Seqs
  import opened Messages
  import opened TreeSpec

  type Topic = seq<Text>

  /** A one-level segment covers a level. */
  predicate Covers(s: Segment, level: Text) {
    s == Plus || s == Name(level)
  }

  /** A published topic matches a filter: level by level, where a final `#` stands for the one or
      more levels that remain and a `#` anywhere else for nothing. */
  predicate LiveMatch(p: Path, topic: Topic) {
    && 0 < |p| <= |topic|
    && (forall i | 0 <= i < |p| - 1 :: Covers(p[i], topic[i]))
    && (p[|p| - 1] == Hash || (|p| == |topic| && Covers(p[|p| - 1], topic[|p| - 1])))
  }

  /** How many levels of a filter come before its first `#`. */
  function HashAt(f: Path): (k: nat)
    ensures k <= |f| && Hash !in f[..k] && (k < |f| ==> f[k] == Hash)
  {
    if f == [] || f[0] == Hash then 0 else HashAt(f[1..]) + 1
  }

  /** A retained topic matches a filter: here a `#` stands for zero or more levels, and what is
      written after it is ignored. */
  predicate RetainedMatch(f: Path, topic: Topic) {
    var k := HashAt(f);
    && (if k == |f| then |topic| == k else |topic| >= k)
    && forall i | 0 <= i < k :: Covers(f[i], topic[i])
  }

  // ----- the walk of a topic over the filters -----

  function UnderAll(s: Segment, ps: seq<Path>): (r: seq<Path>)
    ensures |r| == |ps|
    ensures forall i | 0 <= i < |ps| :: r[i] == [s] + ps[i]
  {
    seq(|ps|, i requires 0 <= i < |ps| => [s] + ps[i])
  }

  /** Every filter that matches a topic, in the order in which the walk tries them. */
  function Patterns(topic: Topic): seq<Path>
    requires |topic| > 0
  {
    [[Hash]] +
    if |topic| == 1 then [[Plus], [Name(topic[0])]]
    else UnderAll(Plus, Patterns(topic[1..])) + UnderAll(Name(topic[0]), Patterns(topic[1..]))
  }

  lemma {:induction false} PatternsExact(topic: Topic, p: Path)
    requires |topic| > 0
    ensures p in Patterns(topic) <==> LiveMatch(p, topic)
  {
    if |topic| == 1 {
      assert p in Patterns(topic) <==> p == [Hash] || p == [Plus] || p == [Name(topic[0])];
      if LiveMatch(p, topic) {
        assert p == [p[0]];
      }
    } else {
      var rest := Patterns(topic[1..]);
      var a, b := UnderAll(Plus, rest), UnderAll(Name(topic[0]), rest);
      if p != [] {
        PatternsExact(topic[1..], p[1..]);
        assert p == [p[0]] + p[1..];
        InUnderAll(Plus, rest, p);
        InUnderAll(Name(topic[0]), rest, p);
        MatchStep(p, topic);
      } else {
        assert p !in a && p !in b;
      }
    }
  }

  lemma InUnderAll(s: Segment, ps: seq<Path>, p: Path)
    requires p != []
    ensures p in UnderAll(s, ps) <==> p[0] == s && p[1..] in ps
  {
    var r := UnderAll(s, ps);
    if p in r {
      var i :| 0 <= i < |r| && r[i] == p;
      assert p[1..] == ps[i];
    }
    if p[0] == s && p[1..] in ps {
      var i :| 0 <= i < |ps| && ps[i] == p[1..];
      assert r[i] == p;
    }
  }

  lemma MatchStep(p: Path, topic: Topic)
    requires p != [] && |topic| > 1
    ensures LiveMatch(p, topic) <==>
            p == [Hash] || (Covers(p[0], topic[0]) && LiveMatch(p[1..], topic[1..]))
  {
    var p', t' := p[1..], topic[1..];
    if |p| == 1 {
      assert p == [p[0]];
    } else {
      if Covers(p[0], topic[0]) && LiveMatch(p', t') {
        forall i | 0 <= i < |p| - 1 ensures Covers(p[i], topic[i]) {
          if i > 0 { assert Covers(p'[i - 1], t'[i - 1]); }
        }
      }
      if LiveMatch(p, topic) {
        assert Covers(p[0], topic[0]);
        forall i | 0 <= i < |p'| - 1 ensures Covers(p'[i], t'[i]) {
          assert Covers(p[i + 1], topic[i + 1]);
        }
      }
    }
  }

  lemma PatternAt(topic: Topic, i: nat)
    requires |topic| > 1 && i < |Patterns(topic)|
    ensures var rest := Patterns(topic[1..]);
      && |Patterns(topic)| == 1 + 2 * |rest|
      && Patterns(topic)[i] ==
         if i == 0 then [Hash]
         else if i <= |rest| then [Plus] + rest[i - 1]
         else [Name(topic[0])] + rest[i - 1 - |rest|]
  {
  }

  /** No filter is tried twice. */
  lemma {:induction false} PatternsDistinct(topic: Topic, i: nat, j: nat)
    requires |topic| > 0 && i < j < |Patterns(topic)|
    ensures Patterns(topic)[i] != Patterns(topic)[j]
  {
    if |topic| == 1 {
      assert Patterns(topic) == [[Hash], [Plus], [Name(topic[0])]];
    } else {
      hide Patterns;
      var n := |Patterns(topic[1..])|;
      var pi, pj := Patterns(topic)[i], Patterns(topic)[j];
      PatternAt(topic, i);
      PatternAt(topic, j);
      if i == 0 || i <= n < j {
        assert pi[0] != pj[0];
      } else {
        PatternsDistinct(topic[1..], if j <= n then i - 1 else i - 1 - n, if j <= n then j - 1 else j - 1 - n);
        assert pi[1..] != pj[1..];
      }
    }
  }

  /** The items of one client at a list of paths. */
  function Items(t: Tree, ps: seq<Path>, client: Text): seq<FilterItem> {
    if ps == [] then []
    else
      (if Get(t, ps[0], client).Some? then [Get(t, ps[0], client).value] else []) +
      Items(t, ps[1..], client)
  }

  lemma {:induction false} ItemsConcat(t: Tree, ps: seq<Path>, qs: seq<Path>, client: Text)
    ensures Items(t, ps + qs, client) == Items(t, ps, client) + Items(t, qs, client)
  {
    if ps == [] {
      assert ps + qs == qs;
    } else {
      assert (ps + qs)[0] == ps[0] && (ps + qs)[1..] == ps[1..] + qs;
      ItemsConcat(t, ps[1..], qs, client);
    }
  }

  lemma {:induction false} ItemsUnder(t: Tree, s: Segment, ps: seq<Path>, client: Text)
    ensures Items(t, UnderAll(s, ps), client) ==
            if Child(t, s).Some? then Items(Child(t, s).value, ps, client) else []
  {
    if ps != [] {
      ItemsUnder(t, s, ps[1..], client);
      assert UnderAll(s, ps)[1..] == UnderAll(s, ps[1..]);
      assert ([s] + ps[0])[1..] == ps[0];
    }
  }

  lemma ItemsOne(t: Tree, s: Segment, client: Text)
    ensures Items(t, [[s]], client) ==
            if Child(t, s).Some? then OwnItem(Child(t, s).value, client) else []
  {
    assert [s][1..] == [] && [[s]][1..] == [];
    assert At(t, [s]) == Child(t, s);
  }

  /** The item a client has at the node itself. */
  function OwnItem(t: Tree, client: Text): seq<FilterItem> {
    if client in t.data then [t.data[client]] else []
  }

  /** The items of one client over a list of nodes. */
  function NodesItems(nodes: seq<Tree>, client: Text): seq<FilterItem> {
    if nodes == [] then [] else NodesItems(nodes[..|nodes| - 1], client) + OwnItem(nodes[|nodes| - 1], client)
  }

  lemma {:induction false} NodesItemsConcat(a: seq<Tree>, b: seq<Tree>, client: Text)
    ensures NodesItems(a + b, client) == NodesItems(a, client) + NodesItems(b, client)
  {
    if b == [] {
      assert a + b == a;
    } else {
      assert (a + b)[..|a + b| - 1] == a + b[..|b| - 1];
      NodesItemsConcat(a, b[..|b| - 1], client);
    }
  }

  /** The nodes the walk of a topic collects, in order. */
  function Walk(t: Tree, topic: Topic): seq<Tree>
    requires |topic| > 0
    decreases |topic|, 0
  {
    OptionSeq(Child(t, Hash)) + WalkBelow(t, Plus, topic[1..]) + WalkBelow(t, Name(topic[0]), topic[1..])
  }

  /** Those it collects through one child. */
  function WalkBelow(t: Tree, s: Segment, rest: Topic): seq<Tree>
    decreases |rest|, 1
  {
    if s !in t.children then []
    else if rest == [] then [t.children[s]]
    else Walk(t.children[s], rest)
  }

  lemma NodesItemsOption(o: Option<Tree>, client: Text)
    ensures NodesItems(OptionSeq(o), client) == if o.Some? then OwnItem(o.value, client) else []
  {
    if o.Some? {
      assert OptionSeq(o)[..0] == [];
    }
  }

  lemma ItemsThree(t: Tree, a: seq<Path>, b: seq<Path>, c: seq<Path>, client: Text)
    ensures Items(t, a + b + c, client) == Items(t, a, client) + Items(t, b, client) + Items(t, c, client)
  {
    ItemsConcat(t, a + b, c, client);
    ItemsConcat(t, a, b, client);
  }

  lemma NodesItemsThree(a: seq<Tree>, b: seq<Tree>, c: seq<Tree>, client: Text)
    ensures NodesItems(a + b + c, client) ==
            NodesItems(a, client) + NodesItems(b, client) + NodesItems(c, client)
  {
    NodesItemsConcat(a + b, c, client);
    NodesItemsConcat(a, b, client);
  }

  lemma WalkItemsEnd(t: Tree, topic: Topic, client: Text)
    requires |topic| == 1
    ensures NodesItems(Walk(t, topic), client) == Items(t, Patterns(topic), client)
  {
    var named := Name(topic[0]);
    var a, b, c := OptionSeq(Child(t, Hash)), OptionSeq(Child(t, Plus)), OptionSeq(Child(t, named));
    NodesItemsThree(a, b, c, client);
    ItemsThree(t, [[Hash]], [[Plus]], [[named]], client);
    assert Walk(t, topic) == a + b + c;
    assert Patterns(topic) == [[Hash]] + [[Plus]] + [[named]];
    NodesItemsOption(Child(t, Hash), client);
    NodesItemsOption(Child(t, Plus), client);
    NodesItemsOption(Child(t, named), client);
    ItemsOne(t, Hash, client);
    ItemsOne(t, Plus, client);
    ItemsOne(t, named, client);
  }

  /** The items of one client at a list of paths below one child. */
  function ItemsBelow(t: Tree, s: Segment, ps: seq<Path>, client: Text): seq<FilterItem> {
    if s in t.children then Items(t.children[s], ps, client) else []
  }

  lemma ItemsOfPatterns(t: Tree, topic: Topic, client: Text)
    requires |topic| > 1
    ensures Items(t, Patterns(topic), client) ==
            NodesItems(OptionSeq(Child(t, Hash)), client) +
            ItemsBelow(t, Plus, Patterns(topic[1..]), client) +
            ItemsBelow(t, Name(topic[0]), Patterns(topic[1..]), client)
  {
    var named, ps := Name(topic[0]), Patterns(topic[1..]);
    assert Patterns(topic) == [[Hash]] + UnderAll(Plus, ps) + UnderAll(named, ps);
    ItemsThree(t, [[Hash]], UnderAll(Plus, ps), UnderAll(named, ps), client);
    NodesItemsOption(Child(t, Hash), client);
    ItemsOne(t, Hash, client);
    ItemsUnder(t, Plus, ps, client);
    ItemsUnder(t, named, ps, client);
  }

  /** The walk collects, for every client, the items at exactly the filters that match. */
  lemma {:induction false} WalkItems(t: Tree, topic: Topic, client: Text)
    requires |topic| > 0
    ensures NodesItems(Walk(t, topic), client) == Items(t, Patterns(topic), client)
    decreases |topic|
  {
    if |topic| == 1 {
      WalkItemsEnd(t, topic, client);
    } else {
      var named, rest := Name(topic[0]), topic[1..];
      var a, b, c := OptionSeq(Child(t, Hash)), WalkBelow(t, Plus, rest), WalkBelow(t, named, rest);
      NodesItemsThree(a, b, c, client);
      ItemsOfPatterns(t, topic, client);
      if Plus in t.children { WalkItems(t.children[Plus], rest, client); }
      if named in t.children { WalkItems(t.children[named], rest, client); }
    }
  }

  /** What a tree finds for a topic and a client. */
  function Collected(t: Tree, topic: Topic, client: Text): seq<FilterItem>
    requires |topic| > 0
  {
    NodesItems(Walk(t, topic), client)
  }

  // ----- the walk of a filter over the retained topics -----

  /** The topics retained at a node and below it. */
  function RetainedAll(t: Tree): set<Topic> {
    (if t.retained.Some? then {[]} else {}) +
    (set s, topic | s in t.children && s.Name? && topic in RetainedAll(t.children[s]) :: [s.name] + topic)
  }

  /** What the walk of a filter adds for one child. */
  function RetainedChild(child: Tree, rest: Path): set<Topic>
    decreases |rest|, 1
  {
    if rest == [] then if child.retained.Some? then {[]} else {}
    else RetainedWalk(child, rest)
  }

  function RetainedWalk(t: Tree, f: Path): set<Topic>
    requires |f| > 0
    decreases |f|, 0
  {
    match f[0]
    case Hash => RetainedAll(t)
    case Plus =>
      set s, topic | s in t.children && s.Name? && topic in RetainedChild(t.children[s], f[1..]) :: [s.name] + topic
    case Name(n) =>
      if f[0] in t.children then set topic <- RetainedChild(t.children[f[0]], f[1..]) :: [n] + topic else {}
  }

  lemma NamesStep(topic: Topic)
    requires topic != []
    ensures Names(topic)[0] == Name(topic[0]) && Names(topic)[1..] == Names(topic[1..])
    ensures topic == [topic[0]] + topic[1..]
  {
  }

  lemma {:induction false} RetainedAllExact(t: Tree, topic: Topic)
    ensures topic in RetainedAll(t) <==> GetRetained(t, Names(topic)).Some?
    decreases |topic|
  {
    if topic != [] {
      NamesStep(topic);
      if Name(topic[0]) in t.children {
        RetainedAllExact(t.children[Name(topic[0])], topic[1..]);
      }
      forall s, rest | s in t.children && s.Name? && rest in RetainedAll(t.children[s]) && topic == [s.name] + rest
        ensures s.name == topic[0] && rest == topic[1..]
      {
      }
    }
  }

  lemma {:induction false} RetainedChildExact(child: Tree, rest: Path, topic: Topic)
    ensures topic in RetainedChild(child, rest) <==>
            GetRetained(child, Names(topic)).Some? && RetainedMatch(rest, topic)
    decreases |rest|, 1
  {
    if rest != [] {
      RetainedWalkExact(child, rest, topic);
    }
  }

  lemma RetainedMatchStep(f: Path, topic: Topic)
    requires f != [] && f[0] != Hash && topic != []
    ensures RetainedMatch(f, topic) <==> Covers(f[0], topic[0]) && RetainedMatch(f[1..], topic[1..])
  {
    var k := HashAt(f);
    if RetainedMatch(f, topic) {
      forall i | 0 <= i < k - 1 ensures Covers(f[1..][i], topic[1..][i]) {
        assert Covers(f[i + 1], topic[i + 1]);
      }
    }
    if Covers(f[0], topic[0]) && RetainedMatch(f[1..], topic[1..]) {
      forall i | 0 <= i < k ensures Covers(f[i], topic[i]) {
        if i > 0 { assert Covers(f[1..][i - 1], topic[1..][i - 1]); }
      }
    }
  }

  /** The walk of a filter finds exactly the retained topics that match it. */
  lemma {:induction false} RetainedWalkExact(t: Tree, f: Path, topic: Topic)
    requires |f| > 0
    ensures topic in RetainedWalk(t, f) <==> GetRetained(t, Names(topic)).Some? && RetainedMatch(f, topic)
    decreases |f|, 0
  {
    if f[0] == Hash {
      RetainedAllExact(t, topic);
    } else if topic != [] {
      NamesStep(topic);
      RetainedMatchStep(f, topic);
      if Name(topic[0]) in t.children {
        RetainedChildExact(t.children[Name(topic[0])], f[1..], topic[1..]);
      }
      forall s, rest | s in t.children && s.Name? && rest in RetainedChild(t.children[s], f[1..]) && topic == [s.name] + rest
        ensures s.name == topic[0] && rest == topic[1..]
      {
      }
    }
  }

  // ----- the walk of a filter, step by step -----

  /** A list of messages shows each of some topics once, and for each its retained message. */
  ghost predicate Lists(t: Tree, messages: seq<Message>, topics: seq<Topic>, those: set<Topic>) {
    && |messages| == |topics|
    && (forall topic :: topic in topics <==> topic in those)
    && (forall i, j | 0 <= i < j < |topics| :: topics[i] != topics[j])
    && (forall i | 0 <= i < |topics| :: GetRetained(t, Names(topics[i])) == Some(messages[i]))
  }

  /** Such a list is as long as there are topics, and holds their messages and no other. */
  lemma ListsEach(t: Tree, messages: seq<Message>, topics: seq<Topic>, those: set<Topic>)
    requires Lists(t, messages, topics, those)
    ensures |messages| == |those|
    ensures forall m :: m in messages <==> exists topic :: topic in those && GetRetained(t, Names(topic)) == Some(m)
  {
    SizeOfDistinct(topics, those);
    forall m | m in messages ensures exists topic :: topic in those && GetRetained(t, Names(topic)) == Some(m) {
      var i :| 0 <= i < |messages| && messages[i] == m;
      assert topics[i] in topics;
    }
    forall topic, m | topic in those && GetRetained(t, Names(topic)) == Some(m) ensures m in messages {
      var i :| 0 <= i < |topics| && topics[i] == topic;
      assert messages[i] == m;
    }
  }

  lemma {:induction false} SizeOfDistinct<T>(xs: seq<T>, those: set<T>)
    requires (forall x :: x in xs <==> x in those) && (forall i, j | 0 <= i < j < |xs| :: xs[i] != xs[j])
    ensures |xs| == |those|
  {
    if xs != [] {
      var n := |xs| - 1;
      assert xs == xs[..n] + [xs[n]];
      SizeOfDistinct(xs[..n], those - {xs[n]});
    } else {
      assert those == {};
    }
  }

  function Below(n: Text, topics: seq<Topic>): (r: seq<Topic>)
    ensures |r| == |topics| && forall i | 0 <= i < |r| :: r[i] == [n] + topics[i]
  {
    seq(|topics|, i requires 0 <= i < |topics| => [n] + topics[i])
  }

  function BelowSet(n: Text, those: set<Topic>): set<Topic> {
    set topic <- those :: [n] + topic
  }

  lemma InBelow(n: Text, topics: seq<Topic>, those: set<Topic>, topic: Topic)
    requires forall x :: x in topics <==> x in those
    ensures topic in Below(n, topics) <==> topic in BelowSet(n, those)
  {
    if topic in BelowSet(n, those) {
      var x :| x in those && topic == [n] + x;
      var i :| 0 <= i < |topics| && topics[i] == x;
      assert Below(n, topics)[i] == topic;
    }
  }

  /** What is listed below one more child. */
  lemma ListsMore(t: Tree, messages: seq<Message>, topics: seq<Topic>, those: set<Topic>,
                  n: Text, more: seq<Message>, moreTopics: seq<Topic>, moreThose: set<Topic>)
    requires Lists(t, messages, topics, those) && Name(n) in t.children
    requires forall topic <- those :: topic == [] || topic[0] != n
    requires Lists(t.children[Name(n)], more, moreTopics, moreThose)
    ensures Lists(t, messages + more, topics + Below(n, moreTopics), those + BelowSet(n, moreThose))
  {
    var below := Below(n, moreTopics);
    forall topic ensures topic in topics + below <==> topic in those + BelowSet(n, moreThose) {
      InBelow(n, moreTopics, moreThose, topic);
    }
    forall i, j | 0 <= i < j < |below| ensures below[i] != below[j] {
      assert below[i][1..] == moreTopics[i] && below[j][1..] == moreTopics[j];
    }
    forall i, j | 0 <= i < |topics| && 0 <= j < |below| ensures topics[i] != below[j] {
      assert topics[i] in those;
    }
    forall j | 0 <= j < |below| ensures GetRetained(t, Names(below[j])) == Some(more[j]) {
      GetRetainedChild(t, below[j]);
      assert below[j][1..] == moreTopics[j];
    }
  }

  /** The retained topics at a node and below some of its children. */
  function RetainedAllFrom(t: Tree, from: set<Segment>): set<Topic>
    requires from <= t.children.Keys
  {
    (if t.retained.Some? then {[]} else {}) +
    set s, topic | s in from && s.Name? && topic in RetainedAll(t.children[s]) :: [s.name] + topic
  }

  lemma RetainedAllFromStep(t: Tree, from: set<Segment>, s: Segment)
    requires from <= t.children.Keys && s in t.children && s.Name? && s !in from
    ensures RetainedAllFrom(t, from + {s}) == RetainedAllFrom(t, from) + BelowSet(s.name, RetainedAll(t.children[s]))
    ensures forall topic <- RetainedAllFrom(t, from) :: topic == [] || topic[0] != s.name
  {
  }

  /** The topics a filter that starts with `+` finds below some of the children. */
  function RetainedPlusFrom(t: Tree, rest: Path, from: set<Segment>): set<Topic>
    requires from <= t.children.Keys
  {
    set s, topic | s in from && s.Name? && topic in RetainedChild(t.children[s], rest) :: [s.name] + topic
  }

  lemma RetainedPlusFromStep(t: Tree, rest: Path, from: set<Segment>, s: Segment)
    requires from <= t.children.Keys && s in t.children && s.Name? && s !in from
    ensures RetainedPlusFrom(t, rest, from + {s}) ==
            RetainedPlusFrom(t, rest, from) + BelowSet(s.name, RetainedChild(t.children[s], rest))
    ensures forall topic <- RetainedPlusFrom(t, rest, from) :: topic == [] || topic[0] != s.name
  {
  }

  lemma ListsAllStep(t: Tree, messages: seq<Message>, topics: seq<Topic>, from: set<Segment>, s: Segment,
                     more: seq<Message>, moreTopics: seq<Topic>)
    requires from <= t.children.Keys && s in t.children && s.Name? && s !in from
    requires Lists(t, messages, topics, RetainedAllFrom(t, from))
    requires Lists(t.children[s], more, moreTopics, RetainedAll(t.children[s]))
    ensures Lists(t, messages + more, topics + Below(s.name, moreTopics), RetainedAllFrom(t, from + {s}))
  {
    RetainedAllFromStep(t, from, s);
    ListsMore(t, messages, topics, RetainedAllFrom(t, from), s.name, more, moreTopics, RetainedAll(t.children[s]));
  }

  lemma ListsPlusStep(t: Tree, rest: Path, messages: seq<Message>, topics: seq<Topic>, from: set<Segment>, s: Segment,
                      more: seq<Message>, moreTopics: seq<Topic>)
    requires from <= t.children.Keys && s in t.children && s.Name? && s !in from
    requires Lists(t, messages, topics, RetainedPlusFrom(t, rest, from))
    requires Lists(t.children[s], more, moreTopics, RetainedChild(t.children[s], rest))
    ensures Lists(t, messages + more, topics + Below(s.name, moreTopics), RetainedPlusFrom(t, rest, from + {s}))
  {
    RetainedPlusFromStep(t, rest, from, s);
    ListsMore(t, messages, topics, RetainedPlusFrom(t, rest, from), s.name, more, moreTopics,
              RetainedChild(t.children[s], rest));
  }

  // ----- the two directions compared -----

  lemma HashAtNone(f: Path)
    requires Hash !in f
    ensures HashAt(f) == |f|
  {
  }

  lemma {:induction false} HashAtConcat(g: Path, rest: Path)
    requires Hash !in g
    ensures HashAt(g + [Hash] + rest) == |g|
  {
    var f := g + [Hash] + rest;
    if g != [] {
      assert f[0] == g[0] && f[1..] == g[1..] + [Hash] + rest;
      HashAtConcat(g[1..], rest);
    }
  }

  /** Without a `#`, both directions agree. */
  lemma DualWithoutHash(f: Path, topic: Topic)
    requires f != [] && Hash !in f
    ensures RetainedMatch(f, topic) <==> LiveMatch(f, topic)
  {
    HashAtNone(f);
    assert f[|f| - 1] != Hash;
    if LiveMatch(f, topic) {
      forall i | 0 <= i < |f| ensures Covers(f[i], topic[i]) {
      }
    }
  }

  /** With a final `#`, they differ by the parent topic alone: it matches a retained message
      and no published one (section 4.7.1.2 of MQTT 5.0 asks for it in both). */
  lemma DualWithHash(g: Path, topic: Topic)
    requires Hash !in g && topic != []
    ensures RetainedMatch(g + [Hash], topic) <==> LiveMatch(g + [Hash], topic) || LiveMatch(g, topic)
    ensures !(LiveMatch(g + [Hash], topic) && LiveMatch(g, topic))
  {
    var f := g + [Hash];
    assert f + [] == f;
    HashAtConcat(g, []);
    assert f[|f| - 1] == Hash && forall i | 0 <= i < |g| :: f[i] == g[i];
    if g != [] {
      assert g[|g| - 1] != Hash;
      if LiveMatch(g, topic) {
        forall i | 0 <= i < |g| ensures Covers(f[i], topic[i]) {
        }
      }
      if RetainedMatch(f, topic) && |topic| == |g| {
        forall i | 0 <= i < |g| ensures Covers(g[i], topic[i]) {
          assert Covers(f[i], topic[i]);
        }
      }
    }
  }

  /** A `#` that is not last, though `ValidFilter` admits it, matches no published topic; a retained
      one it matches as if the `#` were last. So the two directions agree on a topic exactly when
      neither what comes before the `#` nor that with the `#` matches it when published. */
  lemma DualWithHashInside(g: Path, rest: Path, topic: Topic)
    requires Hash !in g && rest != [] && topic != []
    ensures var f := g + [Hash] + rest;
            && !LiveMatch(f, topic)
            && (RetainedMatch(f, topic) <==> RetainedMatch(g + [Hash], topic))
            && ((RetainedMatch(f, topic) <==> LiveMatch(f, topic)) <==>
                !(LiveMatch(g + [Hash], topic) || LiveMatch(g, topic)))
  {
    HashInTheMiddle(g + [Hash] + rest, topic, |g|);
    RetainedIgnoresRest(g, rest, topic);
    DualWithHash(g, topic);
  }

  /** The walk of a filter over retained topics ignores what follows the first `#`. */
  lemma RetainedIgnoresRest(g: Path, rest: Path, topic: Topic)
    requires Hash !in g
    ensures RetainedMatch(g + [Hash] + rest, topic) <==> RetainedMatch(g + [Hash], topic)
  {
    EmptyJoin(g + [Hash]);
    HashAtConcat(g, rest);
    HashAtConcat(g, []);
    assert forall i | 0 <= i < |g| :: (g + [Hash] + rest)[i] == g[i] == (g + [Hash])[i];
  }

  lemma HashInTheMiddle(p: Path, topic: Topic, k: nat)
    requires k + 1 < |p| && p[k] == Hash
    ensures !LiveMatch(p, topic)
  {
    if |p| <= |topic| {
      assert !Covers(p[k], topic[k]);
    }
  }

  /** A topic that a filter matches, if it matches any. */
  function Sample(p: Path): (topic: Topic)
    ensures |topic| == |p|
  {
    seq(|p|, i requires 0 <= i < |p| => if p[i].Name? then p[i].name else [])
  }

  /** A filter matches some published topic if and only if it has no `#` before its last level. */
  lemma MatchesSomethingIff(p: Path)
    requires p != []
    ensures (exists topic :: LiveMatch(p, topic)) <==> forall i | 0 <= i < |p| - 1 :: p[i] != Hash
  {
    if forall i | 0 <= i < |p| - 1 :: p[i] != Hash {
      assert LiveMatch(p, Sample(p));
    } else {
      var k :| 0 <= k < |p| - 1 && p[k] == Hash;
      forall topic ensures !LiveMatch(p, topic) {
        HashInTheMiddle(p, topic, k);
      }
    }
  }
}
