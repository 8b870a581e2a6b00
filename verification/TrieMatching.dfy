/** What a trie finds for a topic or a filter, in terms of the tables it shows. */
module TrieMatching {
  import opened Types
  import opened Messages
  import opened TreeSpec
  import opened TreeShape
  import opened TreeMatch
  import opened TrieSpec

  // ----- matching, on the tables -----

  /** Of a list of filters, those a client is subscribed to. */
  function Subscribed(subs: Subs, g: Option<Text>, ps: seq<Path>, c: Text): seq<Path> {
    if ps == [] then []
    else (if SubKey(g, ps[0], c) in subs then [ps[0]] else []) + Subscribed(subs, g, ps[1..], c)
  }

  lemma {:induction false} SubscribedExact(subs: Subs, g: Option<Text>, ps: seq<Path>, c: Text, p: Path)
    ensures p in Subscribed(subs, g, ps, c) <==> p in ps && SubKey(g, p, c) in subs
  {
    if ps != [] {
      SubscribedExact(subs, g, ps[1..], c, p);
    }
  }

  lemma {:induction false} SubscribedDistinct(subs: Subs, g: Option<Text>, ps: seq<Path>, c: Text)
    requires Distinct(ps)
    ensures Distinct(Subscribed(subs, g, ps, c))
  {
    if ps != [] {
      assert forall i | 0 <= i < |ps| - 1 :: ps[1..][i] == ps[i + 1];
      SubscribedDistinct(subs, g, ps[1..], c);
      SubscribedExact(subs, g, ps[1..], c, ps[0]);
    }
  }

  /** The filters of a client, in one share group or in none, that match a topic. */
  function Matched(subs: Subs, g: Option<Text>, topic: Topic, c: Text): seq<Path>
    requires |topic| > 0
  {
    Subscribed(subs, g, Patterns(topic), c)
  }

  /** Nothing missed, nothing there twice. */
  lemma MatchedExact(subs: Subs, g: Option<Text>, topic: Topic, c: Text)
    requires |topic| > 0
    ensures forall p :: p in Matched(subs, g, topic, c) <==> SubKey(g, p, c) in subs && LiveMatch(p, topic)
    ensures Distinct(Matched(subs, g, topic, c))
  {
    forall p ensures p in Matched(subs, g, topic, c) <==> SubKey(g, p, c) in subs && LiveMatch(p, topic) {
      SubscribedExact(subs, g, Patterns(topic), c, p);
      PatternsExact(topic, p);
    }
    forall i, j | 0 <= i < j < |Patterns(topic)| ensures Patterns(topic)[i] != Patterns(topic)[j] {
      PatternsDistinct(topic, i, j);
    }
    SubscribedDistinct(subs, g, Patterns(topic), c);
  }

  /** And their items. */
  function MatchedItems(subs: Subs, g: Option<Text>, topic: Topic, c: Text): (items: seq<FilterItem>)
    requires |topic| > 0
    ensures |items| == |Matched(subs, g, topic, c)|
    ensures forall i | 0 <= i < |items| ::
              var k := SubKey(g, Matched(subs, g, topic, c)[i], c); k in subs && items[i] == subs[k]
  {
    var ps := Matched(subs, g, topic, c);
    assert forall p <- ps :: SubKey(g, p, c) in subs by {
      forall p | p in ps ensures SubKey(g, p, c) in subs {
        SubscribedExact(subs, g, Patterns(topic), c, p);
      }
    }
    seq(|ps|, i requires 0 <= i < |ps| && SubKey(g, ps[i], c) in subs => subs[SubKey(g, ps[i], c)])
  }

  lemma {:induction false} ItemsOfTree(f: Forest, subs: Subs, g: Option<Text>, ps: seq<Path>, c: Text)
    requires ShowsSubs(f, subs) && g in f
    ensures |Items(f[g], ps, c)| == |Subscribed(subs, g, ps, c)|
    ensures forall i | 0 <= i < |Subscribed(subs, g, ps, c)| ::
              var k := SubKey(g, Subscribed(subs, g, ps, c)[i], c); k in subs && Items(f[g], ps, c)[i] == subs[k]
  {
    if ps != [] {
      assert Get(f[g], ps[0], c) == Lookup(subs, SubKey(g, ps[0], c));
      ItemsOfTree(f, subs, g, ps[1..], c);
    }
  }

  lemma {:induction false} NoneSubscribed(subs: Subs, g: Option<Text>, ps: seq<Path>, c: Text)
    requires forall k <- subs :: k.share != g
    ensures Subscribed(subs, g, ps, c) == []
  {
    if ps != [] {
      assert SubKey(g, ps[0], c).share == g;
      NoneSubscribed(subs, g, ps[1..], c);
    }
  }

  /** What a trie finds for a client is what the tables say matches. */
  lemma CollectedIsMatched(f: Forest, subs: Subs, retained: Retained, g: Option<Text>, topic: Topic, c: Text)
    requires Shows(f, subs, retained) && |topic| > 0
    ensures Collected(TreeOf(f, g), topic, c) == MatchedItems(subs, g, topic, c)
  {
    if g in f {
      WalkItems(f[g], topic, c);
      ItemsOfTree(f, subs, g, Patterns(topic), c);
    } else {
      assert Walk(EMPTY, topic) == [];
      NoneSubscribed(subs, g, Patterns(topic), c);
    }
  }

  // ----- shared subscriptions -----

  /** Which member each share group sends a message to. */
  type Picks = seq<(Text, Text)>

  /** The groups still to do have not picked; each of the others with a match has picked one of its
      members that match. */
  ghost predicate PicksSoFar(f: Forest, topic: Topic, picks: Picks, todo: set<Option<Text>>)
    requires |topic| > 0
  {
    && (forall i, j | 0 <= i < j < |picks| :: picks[i].0 != picks[j].0)
    && (forall i | 0 <= i < |picks| ::
          Some(picks[i].0) !in todo && Collected(TreeOf(f, Some(picks[i].0)), topic, picks[i].1) != [])
    && (forall g, c | Some(g) !in todo && Collected(TreeOf(f, Some(g)), topic, c) != [] ::
          exists i :: 0 <= i < |picks| && picks[i].0 == g)
  }

  lemma NoPicks(f: Forest, topic: Topic, todo: set<Option<Text>>)
    requires |topic| > 0 && forall g <- f :: g.Some? ==> g in todo
    ensures PicksSoFar(f, topic, [], todo)
  {
    assert Walk(EMPTY, topic) == [];
  }

  /** One member for every group with a match, and none for the others. */
  ghost predicate ValidPicks(f: Forest, topic: Topic, picks: Picks)
    requires |topic| > 0
  {
    PicksSoFar(f, topic, picks, {})
  }

  /** The items of the groups that picked a client. */
  function SharedItems(f: Forest, topic: Topic, picks: Picks, c: Text): seq<FilterItem>
    requires |topic| > 0
  {
    if picks == [] then []
    else
      var (g, d) := picks[|picks| - 1];
      SharedItems(f, topic, picks[..|picks| - 1], c) +
      if d == c then Collected(TreeOf(f, Some(g)), topic, c) else []
  }

  /** A group picks, or has nothing to pick from. */
  function Picking(picks: Picks, g: Text, pick: Option<Text>): Picks {
    if pick.Some? then picks + [(g, pick.value)] else picks
  }

  lemma PicksStep(f: Forest, topic: Topic, picks: Picks, todo: set<Option<Text>>, g: Text, pick: Option<Text>)
    requires |topic| > 0 && Some(g) in todo && PicksSoFar(f, topic, picks, todo)
    requires pick.Some? ==> Collected(TreeOf(f, Some(g)), topic, pick.value) != []
    requires pick.None? ==> forall c :: Collected(TreeOf(f, Some(g)), topic, c) == []
    ensures PicksSoFar(f, topic, Picking(picks, g, pick), todo - {Some(g)})
  {
    var picks' := Picking(picks, g, pick);
    forall h, c | Some(h) !in todo - {Some(g)} && Collected(TreeOf(f, Some(h)), topic, c) != []
      ensures exists i :: 0 <= i < |picks'| && picks'[i].0 == h
    {
      if h == g {
        assert picks'[|picks|].0 == h;
      } else {
        var i :| 0 <= i < |picks| && picks[i].0 == h;
        assert picks'[i].0 == h;
      }
    }
  }

  function Listed(matched: map<Text, seq<FilterItem>>, c: Text): seq<FilterItem> {
    if c in matched then matched[c] else []
  }

  function NonEmpty<T(==)>(s: seq<T>): Option<seq<T>> {
    if s == [] then None else Some(s)
  }

  /** The clients that were picked, with their items. */
  ghost predicate ListsShared(f: Forest, topic: Topic, picks: Picks, matched: map<Text, seq<FilterItem>>)
    requires |topic| > 0
  {
    forall c :: Lookup(matched, c) == NonEmpty(SharedItems(f, topic, picks, c))
  }

  lemma ListsSharedStep(f: Forest, topic: Topic, picks: Picks, g: Text, k: Text, matched: map<Text, seq<FilterItem>>)
    requires |topic| > 0 && ListsShared(f, topic, picks, matched)
    requires Collected(TreeOf(f, Some(g)), topic, k) != []
    ensures ListsShared(f, topic, picks + [(g, k)],
                        matched[k := Listed(matched, k) + Collected(TreeOf(f, Some(g)), topic, k)])
  {
    assert (picks + [(g, k)])[..|picks|] == picks && (picks + [(g, k)])[|picks|] == (g, k);
    var matched' := matched[k := Listed(matched, k) + Collected(TreeOf(f, Some(g)), topic, k)];
    forall c ensures Lookup(matched', c) == NonEmpty(SharedItems(f, topic, picks + [(g, k)], c)) {
      assert Lookup(matched, c) == NonEmpty(SharedItems(f, topic, picks, c));
      assert SharedItems(f, topic, picks + [(g, k)], c) ==
             SharedItems(f, topic, picks, c) + if k == c then Collected(TreeOf(f, Some(g)), topic, c) else [];
      assert SharedItems(f, topic, picks, c) + [] == SharedItems(f, topic, picks, c);
    }
  }

  // ----- retained messages that match a filter -----

  /** A list shows every retained message whose topic matches, each once, and no other. */
  ghost predicate ListsMatches(retained: Retained, filter: Path, messages: seq<Message>, topics: seq<Topic>) {
    && |messages| == |topics|
    && (forall topic :: topic in topics <==> topic in retained && RetainedMatch(filter, topic))
    && (forall i, j | 0 <= i < j < |topics| :: topics[i] != topics[j])
    && (forall i | 0 <= i < |topics| :: topics[i] in retained && messages[i] == retained[topics[i]])
  }

  lemma ListsShown(f: Forest, subs: Subs, retained: Retained, filter: Path, messages: seq<Message>, topics: seq<Topic>)
    requires Shows(f, subs, retained) && |filter| > 0
    requires Lists(f[None], messages, topics, RetainedWalk(f[None], filter))
    ensures ListsMatches(retained, filter, messages, topics)
  {
    forall topic ensures topic in topics <==> topic in retained && RetainedMatch(filter, topic) {
      RetainedWalkExact(f[None], filter, topic);
      assert GetRetained(f[None], Names(topic)) == Lookup(retained, topic);
    }
    forall i | 0 <= i < |topics| ensures topics[i] in retained && messages[i] == retained[topics[i]] {
      assert topics[i] in topics;
      assert GetRetained(f[None], Names(topics[i])) == Lookup(retained, topics[i]);
    }
  }
}
