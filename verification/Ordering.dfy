/** Deliveries by several connections at once (libs/service/src/storage.rs:131-157, 405-408). A
    delivery locks one session at a time, so the steps of different connections interleave at will,
    and drains come in between; what one connection delivers still keeps its order in every queue. */
module Ordering {
  import opened Types
  import opened Seqs
  import opened Messages
  import opened FilterUtil
  import opened TreeShape
  import opened TreeMatch
  import opened TrieSpec
  import opened TrieMatching
  import opened StoreSpec

  // ----- the steps of one delivery -----

  /** One message of one connection on its way out: the trie it is matched against, the members its
      share groups picked, and the orders in which the hash maps of matches happen to be walked. */
  datatype Delivery = Delivery(
    trees: Forest,
    msg: Message,
    picks: Picks,
    now: nat,
    plain: seq<Text>,
    shared: seq<Text>)
  {
    function ForPlain(c: Text): seq<FilterItem> {
      Local(Collected(TreeOf(trees, None), Split(msg.topic), c), msg, c)
    }

    function ForShared(c: Text): seq<FilterItem> {
      SharedItems(trees, Split(msg.topic), picks, c)
    }

    /** The walks visit each client with matches once. */
    ghost predicate Valid() {
      && Distinct(plain)
      && (forall c :: c in plain <==> Collected(TreeOf(trees, None), Split(msg.topic), c) != [])
      && Distinct(shared)
      && (forall c :: c in shared <==> ForShared(c) != [])
    }
  }

  /** What happens under the lock of one session. */
  datatype Step = Push(client: Text, copies: seq<Message>)

  function PlainSteps(d: Delivery, order: seq<Text>): seq<Step> {
    if order == [] then []
    else [Push(order[0], Copies(d.msg, d.ForPlain(order[0]), d.now))] + PlainSteps(d, order[1..])
  }

  function SharedSteps(d: Delivery, order: seq<Text>): seq<Step> {
    if order == [] then []
    else [Push(order[0], Copies(d.msg, d.ForShared(order[0]), d.now))] + SharedSteps(d, order[1..])
  }

  function StepsOf(d: Delivery): seq<Step> {
    if d.msg.IsExpired(d.now) then [] else PlainSteps(d, d.plain) + SharedSteps(d, d.shared)
  }

  /** The steps of a connection, one delivery after the other. */
  function Program(ds: seq<Delivery>): seq<Step> {
    if ds == [] then [] else StepsOf(ds[0]) + Program(ds[1..])
  }

  // ----- interleavings -----

  datatype Action = By(connection: nat, step: Step) | Drain(client: Text, limit: Option<nat>)

  datatype Tagged = Tagged(connection: nat, msg: Message)

  /** What a session has handed on and what it still holds, each message with its origin. */
  datatype Lane = Lane(handed: seq<Tagged>, queue: seq<Tagged>) {
    function All(): seq<Tagged> {
      handed + queue
    }
  }

  function Tag(connection: nat, msgs: seq<Message>): (r: seq<Tagged>)
    ensures |r| == |msgs|
  {
    seq(|msgs|, i requires 0 <= i < |msgs| => Tagged(connection, msgs[i]))
  }

  function Apply(lanes: map<Text, Lane>, a: Action): map<Text, Lane> {
    match a
    case By(connection, Push(c, copies)) =>
      if c in lanes then lanes[c := lanes[c].(queue := lanes[c].queue + Tag(connection, copies))] else lanes
    case Drain(c, limit) =>
      if c in lanes then
        var n := Batch(seq(|lanes[c].queue|, i requires 0 <= i < |lanes[c].queue| => lanes[c].queue[i].msg), limit);
        lanes[c := Lane(lanes[c].handed + lanes[c].queue[..n], lanes[c].queue[n..])]
      else lanes
  }

  function Run(lanes: map<Text, Lane>, actions: seq<Action>): map<Text, Lane> {
    if actions == [] then lanes
    else Apply(Run(lanes, actions[..|actions| - 1]), actions[|actions| - 1])
  }

  /** The steps of one connection among all that happened. */
  function Of(actions: seq<Action>, connection: nat): seq<Step> {
    if actions == [] then []
    else
      var last := actions[|actions| - 1];
      Of(actions[..|actions| - 1], connection) +
      if last.By? && last.connection == connection then [last.step] else []
  }

  /** The messages of one connection among those of a session. */
  function Only(msgs: seq<Tagged>, connection: nat): seq<Message> {
    if msgs == [] then []
    else
      var last := msgs[|msgs| - 1];
      Only(msgs[..|msgs| - 1], connection) + if last.connection == connection then [last.msg] else []
  }

  /** What some steps push to one client. */
  function To(steps: seq<Step>, c: Text): seq<Message> {
    if steps == [] then [] else (if steps[0].client == c then steps[0].copies else []) + To(steps[1..], c)
  }

  lemma {:induction false} OnlyJoin(a: seq<Tagged>, b: seq<Tagged>, connection: nat)
    ensures Only(a + b, connection) == Only(a, connection) + Only(b, connection)
  {
    if b == [] {
      assert a + b == a;
    } else {
      var n := |b| - 1;
      assert (a + b)[..|a + b| - 1] == a + b[..n];
      OnlyJoin(a, b[..n], connection);
    }
  }

  lemma {:induction false} OnlyTagged(origin: nat, msgs: seq<Message>, connection: nat)
    ensures Only(Tag(origin, msgs), connection) == if origin == connection then msgs else []
  {
    if msgs != [] {
      var n := |msgs| - 1;
      assert Tag(origin, msgs)[..n] == Tag(origin, msgs[..n]);
      OnlyTagged(origin, msgs[..n], connection);
      assert msgs == msgs[..n] + [msgs[n]];
    }
  }

  lemma {:induction false} ToJoin(a: seq<Step>, b: seq<Step>, c: Text)
    ensures To(a + b, c) == To(a, c) + To(b, c)
  {
    if a == [] {
      assert a + b == b;
    } else {
      assert (a + b)[1..] == a[1..] + b;
      ToJoin(a[1..], b, c);
    }
  }

  lemma ApplyKeepsOrder(lanes: map<Text, Lane>, a: Action, connection: nat, c: Text)
    requires c in lanes
    ensures c in Apply(lanes, a)
    ensures Only(Apply(lanes, a)[c].All(), connection) ==
      Only(lanes[c].All(), connection) +
      if a.By? && a.connection == connection && a.step.client == c then a.step.copies else []
  {
    var lane, lane' := lanes[c], Apply(lanes, a)[c];
    if a.By? && a.step.client == c {
      var tagged := Tag(a.connection, a.step.copies);
      assert lane'.All() == lane.All() + tagged;
      OnlyJoin(lane.All(), tagged, connection);
      OnlyTagged(a.connection, a.step.copies, connection);
    } else {
      assert lane'.All() == lane.All();
    }
  }

  /** Whatever the interleaving, the messages that a session has got from a connection, handed on or
      not, are those that the connection's steps pushed to it, in the order of the steps. */
  lemma {:induction false} RunKeepsOrder(lanes: map<Text, Lane>, actions: seq<Action>, connection: nat, c: Text)
    requires c in lanes
    ensures c in Run(lanes, actions)
    ensures Only(Run(lanes, actions)[c].All(), connection) ==
      Only(lanes[c].All(), connection) + To(Of(actions, connection), c)
  {
    if actions != [] {
      var n := |actions| - 1;
      var before, last := Run(lanes, actions[..n]), actions[n];
      RunKeepsOrder(lanes, actions[..n], connection, c);
      ApplyKeepsOrder(before, last, connection, c);
      var more := if last.By? && last.connection == connection then [last.step] else [];
      ToJoin(Of(actions[..n], connection), more, c);
      assert To(more, c) ==
        if last.By? && last.connection == connection && last.step.client == c then last.step.copies else [] by {
        if more != [] {
          assert more[1..] == [] && last.step.copies + [] == last.step.copies;
        }
      }
      Associative(Only(lanes[c].All(), connection), To(Of(actions[..n], connection), c), To(more, c));
    }
  }

  // ----- what a connection's steps push -----

  /** What the deliveries of a connection are worth to one client, in their order. */
  function Expected(ds: seq<Delivery>, c: Text): seq<Message> {
    if ds == [] then []
    else
      var d := ds[0];
      (if d.msg.IsExpired(d.now) then [] else Fanned(d.trees, d.msg, d.picks, d.now, c)) + Expected(ds[1..], c)
  }

  lemma {:induction false} PlainTo(d: Delivery, order: seq<Text>, c: Text)
    requires Distinct(order)
    ensures To(PlainSteps(d, order), c) == if c in order then Copies(d.msg, d.ForPlain(c), d.now) else []
  {
    if order != [] {
      PlainTo(d, order[1..], c);
    }
  }

  lemma {:induction false} SharedTo(d: Delivery, order: seq<Text>, c: Text)
    requires Distinct(order)
    ensures To(SharedSteps(d, order), c) == if c in order then Copies(d.msg, d.ForShared(c), d.now) else []
  {
    if order != [] {
      SharedTo(d, order[1..], c);
    }
  }

  /** The steps of a delivery add up to its fan-out, in whatever order its matches are walked. */
  lemma StepsAreFanOut(d: Delivery, c: Text)
    requires d.Valid()
    ensures To(StepsOf(d), c) == if d.msg.IsExpired(d.now) then [] else Fanned(d.trees, d.msg, d.picks, d.now, c)
  {
    if !d.msg.IsExpired(d.now) {
      ToJoin(PlainSteps(d, d.plain), SharedSteps(d, d.shared), c);
      PlainTo(d, d.plain, c);
      SharedTo(d, d.shared, c);
    }
  }

  lemma {:induction false} ProgramIsExpected(ds: seq<Delivery>, c: Text)
    requires forall d <- ds :: d.Valid()
    ensures To(Program(ds), c) == Expected(ds, c)
  {
    if ds != [] {
      StepsAreFanOut(ds[0], c);
      ToJoin(StepsOf(ds[0]), Program(ds[1..]), c);
      ProgramIsExpected(ds[1..], c);
    }
  }

  /** However the steps of all connections interleave with one another and with drains, each session
      gets from each connection what that connection's deliveries fan out to it, in delivery order;
      while a connection is still delivering, a prefix of that. */
  lemma DeliveryOrder(lanes: map<Text, Lane>, actions: seq<Action>, connection: nat, ds: seq<Delivery>, c: Text)
    requires c in lanes && (forall d <- ds :: d.Valid())
    requires Of(actions, connection) <= Program(ds)
    ensures c in Run(lanes, actions)
    ensures Only(Run(lanes, actions)[c].All(), connection) <= Only(lanes[c].All(), connection) + Expected(ds, c)
    ensures Of(actions, connection) == Program(ds) ==>
      Only(Run(lanes, actions)[c].All(), connection) == Only(lanes[c].All(), connection) + Expected(ds, c)
  {
    var done, was := Of(actions, connection), Only(lanes[c].All(), connection);
    RunKeepsOrder(lanes, actions, connection, c);
    ProgramIsExpected(ds, c);
    PrefixTo(done, Program(ds), c, was);
  }

  lemma PrefixTo(done: seq<Step>, steps: seq<Step>, c: Text, was: seq<Message>)
    requires done <= steps
    ensures was + To(done, c) <= was + To(steps, c)
  {
    var left := steps[|done|..];
    assert steps == done + left;
    ToJoin(done, left, c);
  }

  /** The same deliveries made alone and at one time put into each queue what `deliver` puts there. */
  lemma {:induction false} AloneIsDeliver(states: map<Text, SessionState>, f: Forest, ds: seq<Delivery>, now: nat, c: Text)
    requires c in states && forall d <- ds :: d.trees == f && d.now == now
    ensures var (msgs, picks) := (MessagesOf(ds), PicksOf(ds));
      && c in DeliveredAll(states, f, msgs, picks, now)
      && DeliveredAll(states, f, msgs, picks, now)[c] == Queued(states[c], Expected(ds, c))
  {
    if ds == [] {
      assert states[c].queue + [] == states[c].queue;
    } else {
      var n := |ds| - 1;
      AloneIsDeliver(states, f, ds[..n], now, c);
      LastOfLists(ds);
      DeliveredLast(states, f, MessagesOf(ds), PicksOf(ds), now);
      OneMoreDelivered(DeliveredAll(states, f, MessagesOf(ds[..n]), PicksOf(ds[..n]), now), f, ds[n], now, c);
      OneMoreQueued(states[c], ds, c);
    }
  }

  lemma DeliveredLast(states: map<Text, SessionState>, f: Forest, msgs: seq<Message>, picks: seq<Picks>, now: nat)
    requires |msgs| == |picks| > 0
    ensures var n := |msgs| - 1;
      DeliveredAll(states, f, msgs, picks, now) ==
      DeliveredTo(DeliveredAll(states, f, msgs[..n], picks[..n], now), f, msgs[n], picks[n], now)
  {
  }

  lemma OneMoreQueued(state: SessionState, ds: seq<Delivery>, c: Text)
    requires ds != []
    ensures var n := |ds| - 1;
      var d := ds[n];
      Queued(Queued(state, Expected(ds[..n], c)),
             if d.msg.IsExpired(d.now) then [] else Fanned(d.trees, d.msg, d.picks, d.now, c))
      == Queued(state, Expected(ds, c))
  {
    var n := |ds| - 1;
    var d := ds[n];
    var more := if d.msg.IsExpired(d.now) then [] else Fanned(d.trees, d.msg, d.picks, d.now, c);
    assert ds == ds[..n] + [d];
    ExpectedMore(ds[..n], d, c);
    Associative(state.queue, Expected(ds[..n], c), more);
  }

  lemma LastOfLists(ds: seq<Delivery>)
    requires ds != []
    ensures var n := |ds| - 1;
      && MessagesOf(ds)[..n] == MessagesOf(ds[..n]) && MessagesOf(ds)[n] == ds[n].msg
      && PicksOf(ds)[..n] == PicksOf(ds[..n]) && PicksOf(ds)[n] == ds[n].picks
  {
  }

  lemma OneMoreDelivered(states: map<Text, SessionState>, f: Forest, d: Delivery, now: nat, c: Text)
    requires c in states
    ensures c in DeliveredTo(states, f, d.msg, d.picks, now)
    ensures DeliveredTo(states, f, d.msg, d.picks, now)[c] ==
      Queued(states[c], if d.msg.IsExpired(now) then [] else Fanned(f, d.msg, d.picks, now, c))
  {
    assert states[c].queue + [] == states[c].queue;
  }

  lemma {:induction false} ExpectedMore(ds: seq<Delivery>, d: Delivery, c: Text)
    ensures Expected(ds + [d], c) ==
      Expected(ds, c) + if d.msg.IsExpired(d.now) then [] else Fanned(d.trees, d.msg, d.picks, d.now, c)
  {
    if ds == [] {
      assert [d][1..] == [];
    } else {
      assert (ds + [d])[1..] == ds[1..] + [d];
      ExpectedMore(ds[1..], d, c);
    }
  }

  function MessagesOf(ds: seq<Delivery>): (r: seq<Message>)
    ensures |r| == |ds|
  {
    seq(|ds|, i requires 0 <= i < |ds| => ds[i].msg)
  }

  function PicksOf(ds: seq<Delivery>): (r: seq<Picks>)
    ensures |r| == |ds|
  {
    seq(|ds|, i requires 0 <= i < |ds| => ds[i].picks)
  }
}
