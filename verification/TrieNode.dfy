/** The mutable nodes of the trie (libs/service/src/trie.rs), each operation tied to the function
    of module TreeSpec that says what it makes of the tree. The hash child, the plus child and the
    named children of a node are one map, keyed by the kind of segment. */
module TrieNode {
  import opened Types
  import opened Messages
  import opened TreeSpec
  import opened TreeShape
  import opened TreeMatch

  /** The footprints of the children lie in that of their parent, apart from it and one another. */
  ghost predicate Separate<K(!new)>(parent: object, repr: set<object>, feet: map<K, set<object>>) {
    && parent in repr
    && (forall s | s in feet :: feet[s] <= repr && parent !in feet[s])
    && (forall s, t | s in feet && t in feet && s != t :: feet[s] !! feet[t])
  }

  /** What a node is, for the proofs: its children and their footprints, its own footprint, and
      the tree it stands for. A child that is out for update is left out. */
  datatype Shadow = Shadow(
    kids: map<Segment, Node>,
    feet: map<Segment, set<object>>,
    repr: set<object>,
    model: Tree)
  {
    ghost function Lending(s: Segment): Shadow {
      Shadow(kids - {s}, feet - {s}, LentRepr(repr, feet, s), WithChild(model, s, None))
    }

    ghost function Giving(s: Segment, node: Node, foot: set<object>, tree: Tree): Shadow {
      Shadow(kids[s := node], feet[s := foot], repr + foot, WithChild(model, s, Some(tree)))
    }
  }

  /** The children are valid, have these footprints, and stand for these trees. */
  ghost predicate KidsValid<K(!new)>(kids: map<K, Node>, feet: map<K, set<object>>, trees: map<K, Tree>,
                                     scope: set<object>)
    reads scope
    decreases scope, 1
  {
    forall s | s in kids ::
         var kid := kids[s];
         && s in feet && s in trees && kid in feet[s] && feet[s] <= scope && kid.S.repr == feet[s] && kid.S.model == trees[s]
         && kid.S.kids == kid.children && kid.Valid()
  }

  function LentRepr<K>(repr: set<object>, feet: map<K, set<object>>, s: K): set<object> {
    if s in feet then repr - feet[s] else repr
  }

  lemma SeparateAfterLending<K(!new)>(parent: object, repr: set<object>, feet: map<K, set<object>>, s: K)
    requires Separate(parent, repr, feet)
    ensures Separate(parent, LentRepr(repr, feet, s), feet - {s})
  {
  }

  lemma SeparateAfterGiving<K(!new)>(parent: object, repr: set<object>, feet: map<K, set<object>>, s: K,
                                     foot: set<object>)
    requires Separate(parent, repr, feet) && foot !! repr
    ensures Separate(parent, repr + foot, feet[s := foot])
  {
  }

  lemma KidsValidAfterLending<K(!new)>(kids: map<K, Node>, feet: map<K, set<object>>, trees: map<K, Tree>,
                                       scope: set<object>, s: K, scope': set<object>)
    requires KidsValid(kids, feet, trees, scope)
    requires forall t | t in feet && t != s :: feet[t] <= scope'
    ensures KidsValid(kids - {s}, feet - {s}, trees - {s}, scope')
  {
  }

  lemma KidsValidAfterGiving<K(!new)>(kids: map<K, Node>, feet: map<K, set<object>>, trees: map<K, Tree>,
                                      scope: set<object>, s: K, node: Node, scope': set<object>)
    requires KidsValid(kids, feet, trees, scope) && node.Whole()
    requires scope <= scope' && node.S.repr <= scope'
    ensures KidsValid(kids[s := node], feet[s := node.S.repr], trees[s := node.S.model], scope')
  {
  }

  lemma KidAt<K(!new)>(kids: map<K, Node>, feet: map<K, set<object>>, trees: map<K, Tree>, scope: set<object>, s: K)
    requires KidsValid(kids, feet, trees, scope) && s in kids
    ensures s in feet && s in trees && feet[s] <= scope && kids[s].S.repr == feet[s] && kids[s].S.model == trees[s]
    ensures kids[s].Whole()
  {
  }

  lemma AddedAndRemoved<K, V>(m: map<K, V>, k: K, v: V)
    requires k !in m
    ensures m[k := v] - {k} == m
  {
  }

  class Node {
    var children: map<Segment, Node>
    var data: map<Text, FilterItem>
    var retainedMessage: Option<Message>

    ghost var S: Shadow

    /** The children are apart from one another and from this node, and the model shows them. */
    ghost predicate Valid()
      reads this, S.repr
      decreases S.repr, 0
      ensures Valid() ==> this in S.repr
    {
      && Separate(this, S.repr, S.feet)
      && S.feet.Keys == S.kids.Keys == S.model.children.Keys
      && KidsValid(S.kids, S.feet, S.model.children, S.repr - {this})
      && S.model.data == data && S.model.retained == retainedMessage
    }

    /** No child is out for update. */
    ghost predicate Whole()
      reads this, S.repr
    {
      Valid() && S.kids == children
    }

    constructor ()
      ensures Whole() && fresh(S.repr) && S.model == EMPTY
    {
      children := map[];
      data, retainedMessage := map[], None;
      S := Shadow(map[], map[], {this}, EMPTY);
    }

    method IsEmpty() returns (empty: bool)
      requires Whole()
      ensures empty == TreeSpec.IsEmpty(S.model)
    {
      empty := children == map[] && data == map[] && retainedMessage.None?;
      assert children == map[] <==> children.Keys == {};
      assert S.model.children == map[] <==> S.model.children.Keys == {};
    }

    /** Takes a child out for update. */
    ghost method Lend(s: Segment)
      requires Whole()
      modifies this`S
      ensures Valid() && S == old(S).Lending(s)
    {
      SeparateAfterLending(this, S.repr, S.feet, s);
      KidsValidAfterLending(S.kids, S.feet, S.model.children, S.repr - {this}, s, S.Lending(s).repr - {this});
      S := S.Lending(s);
    }

    method BorrowExisting(s: Segment) returns (node: Node)
      requires Whole() && s in children
      modifies this`S
      ensures Valid() && s !in S.kids && children == S.kids[s := node]
      ensures node.Whole() && node.S.repr !! S.repr && node.S.repr + S.repr == old(S.repr)
      ensures node.S.model == old(S.model).children[s] && S.model == WithChild(old(S.model), s, None)
    {
      node := children[s];
      KidAt(S.kids, S.feet, S.model.children, S.repr - {this}, s);
      Lend(s);
    }

    method BorrowNew(s: Segment) returns (node: Node)
      requires Whole() && s !in children
      modifies this`S, this`children
      ensures Valid() && s !in S.kids && children == S.kids[s := node]
      ensures node.Whole() && node.S.repr !! S.repr && fresh(node.S.repr) && S.repr == old(S.repr)
      ensures node.S.model == EMPTY && S.model == WithChild(old(S.model), s, None)
    {
      Lend(s);
      node := new Node();
      children := children[s := node];
    }

    /** Takes a child out for update, creating it if it is not there. */
    method Borrow(s: Segment) returns (node: Node)
      requires Whole()
      modifies this
      ensures Valid() && s !in S.kids && children == S.kids[s := node]
      ensures node.Whole() && node.S.repr !! S.repr
      ensures node.S.model == ChildOrEmpty(old(S.model), s) && S.model == WithChild(old(S.model), s, None)
      ensures fresh(S.repr + node.S.repr - old(S.repr))
    {
      if s in children {
        node := BorrowExisting(s);
      } else {
        node := BorrowNew(s);
      }
    }

    /** Gives it back. */
    ghost method GiveBack(s: Segment, node: Node)
      requires Valid() && children == S.kids[s := node]
      requires node.Whole() && node.S.repr !! S.repr
      modifies this`S
      ensures Whole() && S.repr == old(S.repr) + node.S.repr
      ensures S.model == WithChild(old(S.model), s, Some(node.S.model))
    {
      SeparateAfterGiving(this, S.repr, S.feet, s, node.S.repr);
      KidsValidAfterGiving(S.kids, S.feet, S.model.children, S.repr - {this}, s, node, S.repr + node.S.repr - {this});
      S := S.Giving(s, node, node.S.repr, node.S.model);
    }

    /** Drops it instead. */
    method Drop(s: Segment, ghost node: Node)
      requires Valid() && s !in S.kids && children == S.kids[s := node]
      modifies this`children
      ensures Whole()
    {
      AddedAndRemoved(S.kids, s, node);
      children := children - {s};
    }

    /** Gives a child back unless it has become empty. */
    method GiveBackOrDrop(s: Segment, node: Node)
      requires Valid() && s !in S.kids && children == S.kids[s := node]
      requires node.Whole() && node.S.repr !! S.repr
      modifies this`children, this`S
      ensures Whole() && S.repr <= old(S.repr) + node.S.repr
      ensures S.model == if TreeSpec.IsEmpty(node.S.model) then old(S.model)
                         else WithChild(old(S.model), s, Some(node.S.model))
    {
      var empty := node.IsEmpty();
      if empty {
        Drop(s, node);
      } else {
        GiveBack(s, node);
      }
    }

    /** Replaces what the node itself stores. */
    method SetOwn(data': map<Text, FilterItem>, retained': Option<Message>)
      requires Whole()
      modifies this`data, this`retainedMessage, this`S
      ensures Whole() && S == old(S).(model := old(S).model.(data := data', retained := retained'))
    {
      data, retainedMessage := data', retained';
      S := S.(model := S.model.(data := data', retained := retained'));
    }

    method InternalSubscribe(path: Path, client: Text, item: FilterItem) returns (previous: Option<FilterItem>)
      requires Whole()
      modifies S.repr
      ensures Whole() && fresh(S.repr - old(S.repr))
      ensures S.model == Insert(old(S.model), path, client, item)
      ensures previous == Get(old(S.model), path, client)
      decreases |path|
    {
      if path == [] {
        previous := if client in data then Some(data[client]) else None;
        SetOwn(data[client := item], retainedMessage);
      } else {
        ghost var before := S.model;
        GetChild(before, path, client);
        var node := Borrow(path[0]);
        previous := node.InternalSubscribe(path[1..], client, item);
        GiveBack(path[0], node);
        WithChildTwice(before, path[0], node.S.model);
      }
    }

    method InternalUnsubscribe(path: Path, client: Text) returns (removed: Option<FilterItem>)
      requires Whole()
      modifies S.repr
      ensures Whole() && S.repr <= old(S.repr)
      ensures S.model == Remove(old(S.model), path, client)
      ensures removed == Get(old(S.model), path, client)
      decreases |path|
    {
      if path == [] {
        removed := if client in data then Some(data[client]) else None;
        SetOwn(data - {client}, retainedMessage);
      } else if path[0] !in children {
        removed := None;
      } else {
        ghost var before := S.model;
        var node := BorrowExisting(path[0]);
        removed := node.InternalUnsubscribe(path[1..], client);
        GiveBackOrDrop(path[0], node);
        WithChildTwice(before, path[0], node.S.model);
      }
    }

    method InternalSetRetainedMessage(topic: Topic, message: Option<Message>) returns (previous: Option<Message>)
      requires Whole()
      modifies S.repr
      ensures Whole() && fresh(S.repr - old(S.repr))
      ensures S.model == SetRetained(old(S.model), topic, message)
      ensures previous == GetRetained(old(S.model), Names(topic))
      decreases |topic|
    {
      if topic == [] {
        previous := retainedMessage;
        SetOwn(data, message);
      } else {
        ghost var before := S.model;
        GetRetainedChild(before, topic);
        var s := Name(topic[0]);
        var node := Borrow(s);
        previous := node.InternalSetRetainedMessage(topic[1..], message);
        if message.None? {
          GiveBackOrDrop(s, node);
        } else {
          GiveBack(s, node);
        }
        WithChildTwice(before, s, node.S.model);
      }
    }

    /** What the walk that removes a client does with a child: its own data go first, and count once. */
    method RemoveClient(client: Text) returns (count: nat)
      requires Whole()
      modifies S.repr
      ensures Whole() && S.repr <= old(S.repr)
      ensures S.model == RemoveAll(old(S.model), client)
      ensures count == |ClientPaths(old(S.model), client)|
      decreases S.repr, 3
    {
      RemoveAllTwice(S.model, client);
      count := if client in data then 1 else 0;
      SetOwn(data - {client}, retainedMessage);
      var more := InternalUnsubscribeAll(client);
      count := count + more;
    }

    method UnsubscribeChild(s: Segment, client: Text, ghost scope: set<object>) returns (count: nat)
      requires Whole() && S.repr <= scope && s in children
      modifies S.repr
      ensures Whole() && S.repr <= old(S.repr)
      ensures S.model == WithChild(old(S.model), s, Pruned(RemoveAll(old(S.model).children[s], client)))
      ensures count == |ClientPaths(old(S.model).children[s], client)|
      decreases scope, 0
    {
      ghost var before := S.model;
      var node := BorrowExisting(s);
      count := node.RemoveClient(client);
      GiveBackOrDrop(s, node);
      WithChildTwice(before, s, node.S.model);
    }

    method UnsubscribeChildren(client: Text) returns (count: nat, ghost order: seq<Segment>)
      requires Whole()
      modifies S.repr
      ensures Whole() && S.repr <= old(S.repr)
      ensures Taken(old(S.model).children.Keys, {}, order)
      ensures S.model == RemoveEach(old(S.model), client, order)
      ensures count == CountEach(old(S.model), client, order)
      decreases S.repr, 1
    {
      ghost var before := S.model;
      var todo := children.Keys;
      count, order := 0, [];
      while todo != {}
        invariant Taken(before.children.Keys, todo, order)
        invariant Whole() && S.repr <= old(S.repr)
        invariant S.model == RemoveEach(before, client, order) && count == CountEach(before, client, order)
        decreases todo
      {
        var s :| s in todo;
        RemoveEachStep(before, client, todo, order, s);
        var more := UnsubscribeChild(s, client, old(S.repr));
        count := count + more;
        todo, order := todo - {s}, order + [s];
      }
    }

    method InternalUnsubscribeAll(client: Text) returns (count: nat)
      requires Whole()
      modifies S.repr
      ensures Whole() && S.repr <= old(S.repr)
      ensures S.model == RemoveAll(old(S.model), client)
      ensures count == |ClientPaths(old(S.model), client)|
      decreases S.repr, 2
    {
      RemoveAllTwice(S.model, client);
      count := if client in data then 1 else 0;
      SetOwn(data - {client}, retainedMessage);
      ghost var before := S.model;
      var more, order := UnsubscribeChildren(client);
      RemoveEachAll(before, client, order);
      count := count + more;
    }

    method InternalMatches(topic: Topic) returns (nodes: seq<Node>)
      requires Whole() && |topic| > 0
      ensures |nodes| == |Walk(S.model, topic)|
      ensures forall i | 0 <= i < |nodes| :: nodes[i].Whole() && nodes[i].S.model == Walk(S.model, topic)[i]
      decreases |topic|, 0
    {
      nodes := [];
      if Hash in children {
        KidAt(S.kids, S.feet, S.model.children, S.repr - {this}, Hash);
        nodes := [children[Hash]];
      }
      var more := MatchesBelow(Plus, topic[1..]);
      nodes := nodes + more;
      more := MatchesBelow(Name(topic[0]), topic[1..]);
      nodes := nodes + more;
    }

    /** The part of the walk that goes through one child. */
    method MatchesBelow(s: Segment, rest: Topic) returns (nodes: seq<Node>)
      requires Whole()
      ensures |nodes| == |WalkBelow(S.model, s, rest)|
      ensures forall i | 0 <= i < |nodes| :: nodes[i].Whole() && nodes[i].S.model == WalkBelow(S.model, s, rest)[i]
      decreases |rest|, 1
    {
      nodes := [];
      if s in children {
        KidAt(S.kids, S.feet, S.model.children, S.repr - {this}, s);
        if rest == [] {
          nodes := [children[s]];
        } else {
          nodes := children[s].InternalMatches(rest);
        }
      }
    }

    method InternalMatchesRetainedMessagesAll() returns (messages: seq<Message>, ghost topics: seq<Topic>)
      requires Whole()
      ensures Lists(S.model, messages, topics, RetainedAll(S.model))
      decreases S.repr
    {
      messages, topics := [], [];
      if retainedMessage.Some? {
        messages, topics := [retainedMessage.value], [[]];
      }
      var todo := set s <- children.Keys | s.Name?;
      ghost var named, from := todo, {};
      while todo != {}
        invariant todo !! from && todo + from == named
        invariant Lists(S.model, messages, topics, RetainedAllFrom(S.model, from))
      {
        var s :| s in todo;
        KidAt(S.kids, S.feet, S.model.children, S.repr - {this}, s);
        var more, moreTopics := children[s].InternalMatchesRetainedMessagesAll();
        ListsAllStep(S.model, messages, topics, from, s, more, moreTopics);
        messages, topics := messages + more, topics + Below(s.name, moreTopics);
        todo, from := todo - {s}, from + {s};
      }
      assert from == named && RetainedAllFrom(S.model, named) == RetainedAll(S.model);
    }

    method InternalMatchesRetainedMessages(filter: Path) returns (messages: seq<Message>, ghost topics: seq<Topic>)
      requires Whole() && |filter| > 0
      ensures Lists(S.model, messages, topics, RetainedWalk(S.model, filter))
      decreases |filter|, 0
    {
      match filter[0]
      case Hash =>
        messages, topics := InternalMatchesRetainedMessagesAll();
      case Plus =>
        messages, topics := [], [];
        var todo := set s <- children.Keys | s.Name?;
        ghost var named, from := todo, {};
        while todo != {}
          invariant todo !! from && todo + from == named
          invariant Lists(S.model, messages, topics, RetainedPlusFrom(S.model, filter[1..], from))
        {
          var s :| s in todo;
          var more, moreTopics := RetainedBelow(s, filter[1..]);
          ListsPlusStep(S.model, filter[1..], messages, topics, from, s, more, moreTopics);
          messages, topics := messages + more, topics + Below(s.name, moreTopics);
          todo, from := todo - {s}, from + {s};
        }
        assert from == named && RetainedPlusFrom(S.model, filter[1..], named) == RetainedWalk(S.model, filter);
      case Name(n) =>
        messages, topics := [], [];
        if filter[0] in children {
          var more, moreTopics := RetainedBelow(filter[0], filter[1..]);
          ListsMore(S.model, [], [], {}, n, more, moreTopics, RetainedChild(S.model.children[filter[0]], filter[1..]));
          messages, topics := more, Below(n, moreTopics);
          assert [] + more == more && [] + topics == topics;
          assert {} + RetainedWalk(S.model, filter) == RetainedWalk(S.model, filter);
        }
    }

    /** The part of the walk that goes through one child. */
    method RetainedBelow(s: Segment, rest: Path) returns (messages: seq<Message>, ghost topics: seq<Topic>)
      requires Whole() && s in children
      ensures Lists(S.model.children[s], messages, topics, RetainedChild(S.model.children[s], rest))
      decreases |rest|, 1
    {
      KidAt(S.kids, S.feet, S.model.children, S.repr - {this}, s);
      var child := children[s];
      if rest == [] {
        messages, topics := [], [];
        if child.retainedMessage.Some? {
          messages, topics := [child.retainedMessage.value], [[]];
        }
      } else {
        messages, topics := child.InternalMatchesRetainedMessages(rest);
      }
    }
  }
}
