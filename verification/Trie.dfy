/** The trie (libs/service/src/trie.rs): its mutable trees, its counters, and the tables they
    show. The root and the roots of the share groups are one map, keyed by the share name. */
module Trie {
  import opened Types
  import opened Messages
  import opened FilterUtil
  import opened TreeSpec
  import opened TreeShape
  import opened TreeMatch
  import opened TrieSpec
  import opened TrieMatching
  import opened TrieRuns
  import opened TrieNode

  /** The roots that are not out for update, their footprints and trees. */
  datatype Roots = Roots(
    nodes: map<Option<Text>, Node>,
    feet: map<Option<Text>, set<object>>,
    repr: set<object>,
    trees: Forest)
  {
    ghost function Lending(g: Option<Text>): Roots {
      Roots(nodes - {g}, feet - {g}, LentRepr(repr, feet, g), trees - {g})
    }

    ghost function Giving(g: Option<Text>, node: Node, foot: set<object>, tree: Tree): Roots {
      Roots(nodes[g := node], feet[g := foot], repr + foot, trees[g := tree])
    }
  }

  /** The items of a list of nodes, grouped by client in the order of the list. */
  method GroupByClient(nodes: seq<map<Text, FilterItem>>, ghost trees: seq<Tree>)
    returns (matched: map<Text, seq<FilterItem>>)
    requires |nodes| == |trees| && forall i | 0 <= i < |nodes| :: trees[i].data == nodes[i]
    ensures forall c :: Lookup(matched, c) == NonEmpty(NodesItems(trees, c))
  {
    matched := map[];
    for i := 0 to |nodes|
      invariant forall c :: Lookup(matched, c) == NonEmpty(NodesItems(trees[..i], c))
    {
      assert trees[..i + 1][..i] == trees[..i];
      ghost var before := matched;
      var todo := nodes[i].Keys;
      while todo != {}
        invariant todo <= nodes[i].Keys
        invariant forall c :: Lookup(matched, c) ==
                              if c in nodes[i] && c !in todo then Some(Listed(before, c) + [nodes[i][c]])
                              else Lookup(before, c)
        decreases todo
      {
        var c :| c in todo;
        matched := matched[c := Listed(matched, c) + [nodes[i][c]]];
        todo := todo - {c};
      }
      forall c ensures Lookup(matched, c) == NonEmpty(NodesItems(trees[..i + 1], c)) {
        assert NodesItems(trees[..i + 1], c) == NodesItems(trees[..i], c) + OwnItem(trees[i], c);
        assert Lookup(before, c) == NonEmpty(NodesItems(trees[..i], c));
        assert NodesItems(trees[..i], c) + [] == NodesItems(trees[..i], c);
      }
    }
    assert trees[..|nodes|] == trees;
  }

  class Trie {
    var roots: map<Option<Text>, Node>
    var subscribersCount: int
    var retainedMessagesCount: int
    var retainedMessagesBytes: int

    ghost var R: Roots

    ghost predicate RootsValid()
      reads this`R, R.repr - {this}
      ensures RootsValid() ==> this in R.repr && R.nodes.Keys == R.trees.Keys
    {
      && Separate(this, R.repr, R.feet)
      && R.feet.Keys == R.nodes.Keys == R.trees.Keys
      && KidsValid(R.nodes, R.feet, R.trees, R.repr - {this})
    }

    /** No root is out for update. */
    ghost predicate Valid()
      reads this`R, this`roots, R.repr - {this}
      ensures Valid() ==> this in R.repr
    {
      RootsValid() && R.nodes == roots
    }

    ghost function State(): TrieState
      reads this
    {
      TrieState(R.trees, subscribersCount, retainedMessagesCount, retainedMessagesBytes)
    }

    constructor ()
      ensures Valid() && fresh(R.repr) && State() == NO_TRIE
    {
      roots, R := map[], Roots(map[], map[], {this}, map[]);
      subscribersCount, retainedMessagesCount, retainedMessagesBytes := 0, 0, 0;
      new;
      var root := new Node();
      roots := map[None := root];
      GiveBack(None, root);
      assert map[][None := EMPTY] == NOTHING;
    }

    /** Takes a root out for update, creating it if it is not there. */
    method Borrow(g: Option<Text>) returns (node: Node)
      requires Valid()
      modifies this`R, this`roots
      ensures RootsValid() && g !in R.nodes && roots == R.nodes[g := node]
      ensures node.Whole() && node.S.repr !! R.repr && fresh(R.repr + node.S.repr - old(R.repr))
      ensures node.S.model == TreeOf(old(R.trees), g) && R.trees == old(R.trees) - {g}
      ensures g in old(R.trees) ==> R.repr + node.S.repr <= old(R.repr)
    {
      hide KidsValid;
      if g in roots {
        node := BorrowExisting(g);
      } else {
        Lend(g);
        node := new Node();
        roots := roots[g := node];
      }
    }

    method BorrowExisting(g: Option<Text>) returns (node: Node)
      requires Valid() && g in roots
      modifies this`R
      ensures RootsValid() && g !in R.nodes && roots == R.nodes[g := node]
      ensures node.Whole() && node.S.repr !! R.repr && R.repr + node.S.repr == old(R.repr)
      ensures node.S.model == TreeOf(old(R.trees), g) && R.trees == old(R.trees) - {g}
    {
      node := roots[g];
      KidAt(R.nodes, R.feet, R.trees, R.repr - {this}, g);
      Lend(g);
    }

    ghost method Lend(g: Option<Text>)
      requires RootsValid() && R.nodes == roots
      modifies this`R
      ensures RootsValid() && R == old(R).Lending(g)
    {
      SeparateAfterLending(this, R.repr, R.feet, g);
      KidsValidAfterLending(R.nodes, R.feet, R.trees, R.repr - {this}, g, R.Lending(g).repr - {this});
      R := R.Lending(g);
    }

    /** Gives it back. */
    ghost method GiveBack(g: Option<Text>, node: Node)
      requires RootsValid() && g !in R.nodes && roots == R.nodes[g := node]
      requires node.Whole() && node.S.repr !! R.repr
      modifies this`R
      ensures RootsValid() && R.nodes == roots && R.repr == old(R.repr) + node.S.repr
      ensures R.trees == old(R.trees)[g := node.S.model]
    {
      SeparateAfterGiving(this, R.repr, R.feet, g, node.S.repr);
      KidsValidAfterGiving(R.nodes, R.feet, R.trees, R.repr - {this}, g, node, R.repr + node.S.repr - {this});
      R := R.Giving(g, node, node.S.repr, node.S.model);
    }

    // ----- the operations on the trees -----

    method SubscribeIn(g: Option<Text>, path: Path, client: Text, item: FilterItem) returns (previous: Option<FilterItem>)
      requires Valid()
      modifies this`R, this`roots, R.repr - {this}
      ensures Valid() && fresh(R.repr - old(R.repr))
      ensures R.trees == old(R.trees)[g := Insert(TreeOf(old(R.trees), g), path, client, item)]
      ensures previous == Get(TreeOf(old(R.trees), g), path, client)
    {
      hide RootsValid;
      ghost var before := R.trees;
      var node := Borrow(g);
      previous := node.InternalSubscribe(path, client, item);
      GiveBack(g, node);
      LentAndGiven(before, g, node.S.model);
    }

    method UnsubscribeIn(g: Option<Text>, path: Path, client: Text) returns (removed: Option<FilterItem>)
      requires Valid()
      modifies this`R, this`roots, R.repr - {this}
      ensures Valid() && fresh(R.repr - old(R.repr))
      ensures R.trees == old(R.trees)[g := Remove(TreeOf(old(R.trees), g), path, client)]
      ensures removed == Get(TreeOf(old(R.trees), g), path, client)
    {
      hide RootsValid;
      ghost var before := R.trees;
      var node := Borrow(g);
      removed := node.InternalUnsubscribe(path, client);
      GiveBack(g, node);
      LentAndGiven(before, g, node.S.model);
    }

    method SetRetainedIn(g: Option<Text>, topic: Topic, message: Option<Message>) returns (previous: Option<Message>)
      requires Valid()
      modifies this`R, this`roots, R.repr - {this}
      ensures Valid() && fresh(R.repr - old(R.repr))
      ensures R.trees == old(R.trees)[g := SetRetained(TreeOf(old(R.trees), g), topic, message)]
      ensures previous == GetRetained(TreeOf(old(R.trees), g), Names(topic))
    {
      hide RootsValid;
      ghost var before := R.trees;
      var node := Borrow(g);
      previous := node.InternalSetRetainedMessage(topic, message);
      GiveBack(g, node);
      LentAndGiven(before, g, node.S.model);
    }

    /** One more root of the walk that removes a client. */
    method RemoveClientIn(g: Option<Text>, client: Text) returns (count: nat)
      requires Valid() && g in R.trees
      modifies this`R, this`roots, R.repr - {this}
      ensures Valid() && R.repr <= old(R.repr)
      ensures R.trees == old(R.trees)[g := RemoveAll(old(R.trees)[g], client)]
      ensures count == |ClientPaths(old(R.trees)[g], client)|
    {
      hide RootsValid;
      ghost var before := R.trees;
      var node := Borrow(g);
      count := node.InternalUnsubscribeAll(client);
      GiveBack(g, node);
      LentAndGiven(before, g, node.S.model);
    }

    method UnsubscribeRoot(g: Option<Text>, client: Text, ghost before: Forest, ghost todo: set<Option<Text>>,
                           ghost order: seq<Option<Text>>)
      returns (count: nat)
      requires Valid() && R.trees == RemoveRoots(before, client, order)
      requires Taken(before.Keys, todo, order) && g in todo
      modifies this`R, this`roots, R.repr - {this}
      ensures Valid() && R.repr <= old(R.repr) && R.trees == RemoveRoots(before, client, order + [g])
      ensures CountRoots(before, client, order + [g]) == CountRoots(before, client, order) + count
      ensures Taken(before.Keys, todo - {g}, order + [g])
    {
      hide RootsValid;
      RemoveRootsAt(before, client, order);
      RemoveRootsStep(before, client, todo, order, g);
      count := RemoveClientIn(g, client);
    }

    method UnsubscribeRoots(client: Text) returns (count: nat, ghost order: seq<Option<Text>>)
      requires Valid()
      modifies this`R, this`roots, R.repr - {this}
      ensures Valid() && R.repr <= old(R.repr)
      ensures Taken(old(R.trees).Keys, {}, order)
      ensures R.trees == RemoveRoots(old(R.trees), client, order) && count == CountRoots(old(R.trees), client, order)
    {
      hide RootsValid;
      ghost var before := R.trees;
      var todo := roots.Keys;
      count, order := 0, [];
      while todo != {}
        invariant Valid() && R.repr <= old(R.repr)
        invariant Taken(before.Keys, todo, order) && R.trees == RemoveRoots(before, client, order)
        invariant count == CountRoots(before, client, order)
        decreases todo
      {
        var g :| g in todo;
        var more := UnsubscribeRoot(g, client, before, todo, order);
        count := count + more;
        todo, order := todo - {g}, order + [g];
      }
    }

    // ----- and with the counters -----

    method Subscribe(filter: Filter, client: Text, item: FilterItem) returns (previous: Option<FilterItem>)
      requires Valid()
      modifies R.repr
      ensures Valid() && fresh(R.repr - old(R.repr))
      ensures State() == Subscribing(old(State()), filter.shareName, PathOf(filter.path), client, item)
      ensures previous == ItemAt(old(State()), filter.shareName, PathOf(filter.path), client)
    {
      hide RootsValid;
      previous := SubscribeIn(filter.shareName, PathOf(filter.path), client, item);
      if previous.None? {
        subscribersCount := subscribersCount + 1;
      }
    }

    method Unsubscribe(filter: Filter, client: Text) returns (removed: Option<FilterItem>)
      requires Valid()
      modifies R.repr
      ensures Valid() && fresh(R.repr - old(R.repr))
      ensures State() == Unsubscribing(old(State()), filter.shareName, PathOf(filter.path), client)
      ensures removed == ItemAt(old(State()), filter.shareName, PathOf(filter.path), client)
    {
      hide RootsValid;
      removed := UnsubscribeIn(filter.shareName, PathOf(filter.path), client);
      if removed.Some? {
        subscribersCount := subscribersCount - 1;
      }
    }

    method UnsubscribeAll(client: Text) returns (ghost order: seq<Option<Text>>)
      requires Valid()
      modifies R.repr
      ensures Valid() && fresh(R.repr - old(R.repr))
      ensures Taken(old(State()).trees.Keys, {}, order)
      ensures State() == UnsubscribingAll(old(State()), client, order)
    {
      hide RootsValid;
      var count;
      count, order := UnsubscribeRoots(client);
      subscribersCount := subscribersCount - count;
    }

    method SetRetainedMessage(path: Text, message: Option<Message>) returns (previous: Option<Message>)
      requires Valid()
      modifies R.repr
      ensures Valid() && fresh(R.repr - old(R.repr))
      ensures State() == Retaining(old(State()), Split(path), message)
      ensures previous == RetainedAt(old(State()), Split(path))
    {
      hide RootsValid;
      previous := SetRetainedIn(None, Split(path), message);
      CountRetained(previous, message);
    }

    method CountRetained(previous: Option<Message>, message: Option<Message>)
      modifies this`retainedMessagesCount, this`retainedMessagesBytes
      ensures retainedMessagesCount == old(retainedMessagesCount) +
                                       (if message.Some? then 1 else 0) - (if previous.Some? then 1 else 0)
      ensures retainedMessagesBytes == BytesAfter(old(retainedMessagesBytes), previous, message)
    {
      match (previous, message) {
        case (None, Some(m)) =>
          retainedMessagesCount := retainedMessagesCount + 1;
          retainedMessagesBytes := retainedMessagesBytes + |m.payload|;
        case (Some(m), None) =>
          retainedMessagesCount := retainedMessagesCount - 1;
          retainedMessagesBytes := retainedMessagesBytes - |m.payload|;
        case _ =>
      }
    }

    /** What one tree holds for a topic, grouped by client. */
    method MatchesIn(g: Option<Text>, topic: Topic) returns (matched: map<Text, seq<FilterItem>>)
      requires Valid() && g in roots && |topic| > 0
      ensures forall c :: Lookup(matched, c) == NonEmpty(Collected(TreeOf(R.trees, g), topic, c))
    {
      KidAt(R.nodes, R.feet, R.trees, R.repr - {this}, g);
      var nodes := roots[g].InternalMatches(topic);
      var data := seq(|nodes|, i requires 0 <= i < |nodes| reads nodes => nodes[i].data);
      matched := GroupByClient(data, Walk(R.trees[g], topic));
    }

    method Matches(topic: Text) returns (matched: map<Text, seq<FilterItem>>)
      requires Valid() && None in State().trees
      ensures forall c :: Lookup(matched, c) == NonEmpty(Collected(TreeOf(R.trees, None), Split(topic), c))
    {
      matched := MatchesIn(None, Split(topic));
    }

    /** One share group: a member that matches is picked, if there is one. */
    method PickFrom(g: Text, topic: Topic) returns (pick: Option<Text>, items: seq<FilterItem>)
      requires Valid() && Some(g) in roots && |topic| > 0
      ensures pick.None? ==> forall c :: Collected(TreeOf(R.trees, Some(g)), topic, c) == []
      ensures pick.Some? ==> items == Collected(TreeOf(R.trees, Some(g)), topic, pick.value) != []
    {
      var shareMatches := MatchesIn(Some(g), topic);
      if shareMatches.Keys != {} {
        var k :| k in shareMatches.Keys;
        assert Lookup(shareMatches, k) == NonEmpty(Collected(TreeOf(R.trees, Some(g)), topic, k));
        pick, items := Some(k), shareMatches[k];
      } else {
        pick, items := None, [];
        assert forall c :: Lookup(shareMatches, c).None?;
      }
    }

    method MatchesShared(topic: Text) returns (matched: map<Text, seq<FilterItem>>, ghost picks: Picks)
      requires Valid()
      ensures ValidPicks(R.trees, Split(topic), picks)
      ensures ListsShared(R.trees, Split(topic), picks, matched)
    {
      matched, picks := map[], [];
      var levels := Split(topic);
      var todo := set g <- roots.Keys | g.Some?;
      NoPicks(R.trees, levels, todo);
      while todo != {}
        invariant todo <= roots.Keys && None !in todo
        invariant PicksSoFar(R.trees, levels, picks, todo)
        invariant ListsShared(R.trees, levels, picks, matched)
        decreases todo
      {
        var g :| g in todo;
        var pick, items := PickFrom(g.value, levels);
        PicksStep(R.trees, levels, picks, todo, g.value, pick);
        if pick.Some? {
          ListsSharedStep(R.trees, levels, picks, g.value, pick.value, matched);
          matched := matched[pick.value := Listed(matched, pick.value) + items];
        }
        picks := Picking(picks, g.value, pick);
        todo := todo - {g};
      }
    }

    method MatchesRetainedMessages(filter: Text) returns (messages: seq<Message>, ghost topics: seq<Topic>)
      requires Valid() && None in State().trees
      ensures Lists(TreeOf(R.trees, None), messages, topics, RetainedWalk(TreeOf(R.trees, None), PathOf(filter)))
      ensures |messages| == |RetainedWalk(TreeOf(R.trees, None), PathOf(filter))|
    {
      KidAt(R.nodes, R.feet, R.trees, R.repr - {this}, None);
      messages, topics := roots[None].InternalMatchesRetainedMessages(PathOf(filter));
      ListsEach(TreeOf(R.trees, None), messages, topics, RetainedWalk(TreeOf(R.trees, None), PathOf(filter)));
    }
  }
}
