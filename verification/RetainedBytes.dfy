/** The byte counter of retained messages over runs of the trie (libs/service/src/trie.rs:386-396).
    Replacing a message leaves the counter alone, whatever the sizes; here is how far that takes it. */
module RetainedBytes {
  import opened Types
  import opened Messages
  import opened Seqs
  import opened TreeMatch
  import opened TrieSpec
  import opened TrieRuns

  /** By how much an operation lets a message grow that is there already. */
  function Growth(retained: Retained, op: Op): int {
    if op.SetRetainedMessage? && op.message.Some? && op.topic in retained then
      |op.message.value.payload| - |retained[op.topic].payload|
    else 0
  }

  function TotalGrowth(ops: seq<Op>): int {
    if ops == [] then 0
    else TotalGrowth(ops[..|ops| - 1]) + Growth(RunRetained(ops[..|ops| - 1]), ops[|ops| - 1])
  }

  lemma BytesOfAfter(retained: Retained, topic: Topic, message: Option<Message>)
    ensures Bytes(RetainedAfter(retained, topic, message)) ==
            Bytes(retained) - (if topic in retained then |retained[topic].payload| else 0)
                            + (if message.Some? then |message.value.payload| else 0)
  {
    var after := RetainedAfter(retained, topic, message);
    if topic in retained {
      BytesWithout(retained, topic);
    } else {
      assert retained - {topic} == retained;
    }
    if message.Some? {
      BytesWithout(after, topic);
      assert after - {topic} == retained - {topic};
    }
  }

  /** Over every run: the counter is the bytes retained, less all the growth by replacement. */
  lemma {:induction false} BytesDrift(ops: seq<Op>)
    requires PossibleRun(ops)
    ensures Run(NO_TRIE, ops).retainedBytes == Bytes(RunRetained(ops)) - TotalGrowth(ops)
  {
    if ops != [] {
      var n := |ops| - 1;
      var rest, op := ops[..n], ops[n];
      PossiblePrefix(ops);
      BytesDrift(rest);
      RunSound(rest);
      StepDrift(Run(NO_TRIE, rest), RunSubs(rest), RunRetained(rest), op);
    }
  }

  lemma PossiblePrefix(ops: seq<Op>)
    requires PossibleRun(ops) && ops != []
    ensures PossibleRun(ops[..|ops| - 1])
  {
    var rest := ops[..|ops| - 1];
    assert forall i | 0 <= i < |rest| :: rest[..i] == ops[..i];
  }

  lemma StepDrift(s: TrieState, subs: Subs, retained: Retained, op: Op)
    requires Sound(s, subs, retained)
    ensures Apply(s, op).retainedBytes - s.retainedBytes ==
            Bytes(ApplyRetained(retained, op)) - Bytes(retained) - Growth(retained, op)
  {
    if op.SetRetainedMessage? {
      LookUpsExact(s, subs, retained, None, [], [], op.topic);
      BytesOfAfter(retained, op.topic, op.message);
    }
  }

  /** So a `usize` would not wrap round, if and only if no more has grown than is there. */
  lemma NonNegativeIff(ops: seq<Op>)
    requires PossibleRun(ops)
    ensures Run(NO_TRIE, ops).retainedBytes >= 0 <==> TotalGrowth(ops) <= Bytes(RunRetained(ops))
  {
    BytesDrift(ops);
  }

  predicate Deletes(op: Op) {
    op.SetRetainedMessage? && op.message.None? && op.topic != []
  }

  lemma {:induction false} DeletionsPossible(ops: seq<Op>, more: seq<Op>)
    requires PossibleRun(ops) && forall op <- more :: Deletes(op)
    ensures PossibleRun(ops + more) && TotalGrowth(ops + more) == TotalGrowth(ops)
  {
    if more == [] {
      EmptyJoin(ops);
    } else {
      hide Run, RunRetained, PossibleRun, TotalGrowth;
      var n := |more| - 1;
      assert more[n] in more;
      DeletionsPossible(ops, more[..n]);
      LastOfJoin(ops, more);
      OneMorePossible(ops + more[..n], more[n]);
    }
  }

  lemma OneMorePossible(before: seq<Op>, op: Op)
    requires PossibleRun(before) && Possible(Run(NO_TRIE, before), op)
    ensures PossibleRun(before + [op])
    ensures TotalGrowth(before + [op]) == TotalGrowth(before) + Growth(RunRetained(before), op)
  {
    var all := before + [op];
    assert all[..|all| - 1] == before;
    forall i | 0 <= i < |all| ensures Possible(Run(NO_TRIE, all[..i]), all[i]) {
      if i < |before| {
        assert all[..i] == before[..i] && all[i] == before[i];
      }
    }
  }

  /** Deletions can take every retained message. */
  lemma {:induction false} DeleteAll(ops: seq<Op>) returns (more: seq<Op>)
    requires PossibleRun(ops)
    ensures forall op <- more :: Deletes(op)
    ensures RunRetained(ops + more) == map[]
    decreases |RunRetained(ops)|
  {
    more := [];
    EmptyJoin(ops);
    if RunRetained(ops) != map[] {
      var topic :| topic in RunRetained(ops);
      TopicsHaveLevels(ops, topic);
      var one := [SetRetainedMessage(topic, None)];
      DeletionsPossible(ops, one);
      assert (ops + one)[..|ops + one| - 1] == ops;
      SizeWithout(RunRetained(ops), topic);
      var rest := DeleteAll(ops + one);
      more := one + rest;
      Associative(ops, one, rest);
    }
  }

  lemma {:induction false} TopicsHaveLevels(ops: seq<Op>, topic: Topic)
    requires PossibleRun(ops) && topic in RunRetained(ops)
    ensures topic != []
  {
    var n := |ops| - 1;
    PossiblePrefix(ops);
    assert ops[..n] == ops[..|ops| - 1];
    assert Possible(Run(NO_TRIE, ops[..n]), ops[n]);
    if topic in RunRetained(ops[..n]) {
      TopicsHaveLevels(ops[..n], topic);
    }
  }

  /** Deletions alone can take the counter below zero, if and only if replacements have let the
      messages grow in all. */
  lemma UnderflowIff(ops: seq<Op>)
    requires PossibleRun(ops)
    ensures (exists more :: (forall op <- more :: Deletes(op)) && Run(NO_TRIE, ops + more).retainedBytes < 0) <==>
            TotalGrowth(ops) > 0
  {
    forall more | forall op <- more :: Deletes(op)
      ensures Run(NO_TRIE, ops + more).retainedBytes == Bytes(RunRetained(ops + more)) - TotalGrowth(ops)
    {
      DeletionsPossible(ops, more);
      BytesDrift(ops + more);
    }
    if TotalGrowth(ops) > 0 {
      var more := DeleteAll(ops);
      assert Run(NO_TRIE, ops + more).retainedBytes == Bytes(RunRetained(ops + more)) - TotalGrowth(ops);
      assert Bytes(RunRetained(ops + more)) == 0;
    }
  }
}
