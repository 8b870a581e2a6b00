/** What the property sections of PUBLISH and SUBSCRIBE have in common: user properties, and sections
    that are counted or printed from front to back. */
module UserProperties {
  import opened Types
  import opened Seqs
  import opened Utf8
  import opened Wire
  import opened Buffers
  import opened Properties

  function UserItems(users: seq<(Text, Text)>): seq<Property> {
    if users == [] then [] else [UserProperty(users[0].0, users[0].1)] + UserItems(users[1..])
  }

  lemma {:induction false} UserItemsMore(users: seq<(Text, Text)>, user: (Text, Text))
    ensures UserItems(users + [user]) == UserItems(users) + [UserProperty(user.0, user.1)]
  {
    if users == [] {
      assert [user][1..] == [];
    } else {
      UserItemsMore(users[1..], user);
      assert (users + [user])[1..] == users[1..] + [user];
    }
  }

  lemma {:induction false} BoundariesOfUsers(users: seq<(Text, Text)>)
    ensures Boundaries(UserItems(users)) == 0
  {
    if users != [] {
      BoundariesOfUsers(users[1..]);
    }
  }

  /** Pairs that came off the wire. */
  predicate ReceivedUsers(users: seq<(Text, Text)>) {
    forall i | 0 <= i < |users| ::
      Short(users[i].0) && ValidUtf8(users[i].0) && Short(users[i].1) && ValidUtf8(users[i].1)
  }

  lemma {:induction false} UsersSendable(users: seq<(Text, Text)>)
    requires ReceivedUsers(users)
    ensures Sendable(UserItems(users))
  {
    if users != [] {
      UsersSendable(users[1..]);
    }
  }

  /** The bytes the pairs take. */
  method UsersLength(users: seq<(Text, Text)>) returns (len: nat)
    ensures AllDeclared(UserItems(users)) == Ok(len)
  {
    len := 0;
    for i := 0 to |users|
      invariant AllDeclared(UserItems(users[..i])) == Ok(len)
    {
      var (key, value) := users[i];
      assert users[..i + 1] == users[..i] + [(key, value)];
      UserItemsMore(users[..i], (key, value));
      OneDeclared(UserProperty(key, value));
      AllDeclaredJoin(UserItems(users[..i]), [UserProperty(key, value)]);
      len := len + 1 + 2 + |key| + 2 + |value|;
    }
    assert users[..|users|] == users;
  }

  lemma OneDeclared(item: Property)
    ensures AllDeclared([item]).Ok? <==> item.Declared().Ok?
    ensures item.Declared().Ok? ==> AllDeclared([item]) == item.Declared()
  {
    assert [item][1..] == [];
  }

  method WritePair(key: Text, value: Text, data: BytesMut) returns (r: Result<(), EncodeError>)
    modifies data
    ensures r == if UserProperty(key, value).Fits() then Ok(()) else Err(PayloadTooLarge)
    ensures data.data == old(data.data) + UserProperty(key, value).Printed()
  {
    ghost var was: Text, kind: Text := data.data, [USER_PROPERTY];
    data.PutU8(USER_PROPERTY);
    EmptyJoin(kind);
    var _ :- data.WriteString(key);
    Associative(was, kind, BinaryBytes(key));
    var _ :- data.WriteString(value);
    Associative(was, kind + BinaryBytes(key), BinaryBytes(value));
    return Ok(());
  }

  method WriteUsers(users: seq<(Text, Text)>, data: BytesMut) returns (r: Result<(), EncodeError>)
    modifies data
    ensures r == if AllFit(UserItems(users)) then Ok(()) else Err(PayloadTooLarge)
    ensures data.data == old(data.data) + Front(UserItems(users))
  {
    for i := 0 to |users|
      invariant Pending(old(data.data), UserItems(users), data.data, UserItems(users[i..]))
    {
      var (key, value) := users[i];
      NextUser(users[i..]);
      assert users[i..][1..] == users[i + 1..];
      OnePut(old(data.data), UserItems(users), data.data, Some(UserProperty(key, value)), UserItems(users[i + 1..]));
      var _ :- WritePair(key, value, data);
    }
    return Ok(());
  }

  lemma NextUser(users: seq<(Text, Text)>)
    requires users != []
    ensures UserItems(users) == Cons(Some(UserProperty(users[0].0, users[0].1)), UserItems(users[1..]))
    ensures var (item, rest) := (UserProperty(users[0].0, users[0].1), UserItems(users[1..]));
      && (AllFit(UserItems(users)) <==> item.Fits() && AllFit(rest))
      && (AllFit(UserItems(users)) ==> AllBytes(UserItems(users)) == item.Bytes() + AllBytes(rest))
  {
    ConsFits(Some(UserProperty(users[0].0, users[0].1)), UserItems(users[1..]));
  }

  method PutId(id: NonZeroUsize, data: BytesMut) returns (r: Result<(), EncodeError>)
    modifies data
    ensures r == if id <= MAX_VARINT then Ok(()) else Err(PayloadTooLarge)
    ensures data.data == old(data.data) + SubscriptionIdentifier(id).Printed()
  {
    data.PutU8(SUBSCRIPTION_IDENTIFIER);
    EmptyJoin([SUBSCRIPTION_IDENTIFIER]);
    var _ :- data.WriteRemainingLength(id);
    Associative(old(data.data), [SUBSCRIPTION_IDENTIFIER], VarInt(id));
    return Ok(());
  }

  // ---- sections that are half counted or half printed ----

  /** `len` covers all the items but those that are left. */
  predicate Counted(items: seq<Property>, len: nat, left: seq<Property>) {
    && (AllDeclared(items).Ok? <==> AllDeclared(left).Ok?)
    && (AllDeclared(left).Ok? ==> AllDeclared(items).value == len + AllDeclared(left).value)
  }

  function OptionLength(item: Option<Property>): nat {
    if item.Some? && item.value.Declared().Ok? then item.value.Declared().value else 0
  }

  lemma OneCounted(items: seq<Property>, len: nat, item: Option<Property>, left: seq<Property>)
    requires Counted(items, len, Cons(item, left))
    requires item.Some? ==> item.value.Declared().Ok?
    ensures Counted(items, len + OptionLength(item), left)
  {
    ConsDeclared(item, left);
  }

  lemma SomeCounted(items: seq<Property>, len: nat, a: seq<Property>, left: seq<Property>)
    requires Counted(items, len, a + left)
    ensures AllDeclared(a).Err? ==> AllDeclared(items).Err?
    ensures AllDeclared(a).Ok? ==> Counted(items, len + AllDeclared(a).value, left)
  {
    AllDeclaredJoin(a, left);
  }

  /** What was in the buffer and an attempt to print all the items come to what is in it and an
      attempt to print the items left. */
  predicate Pending(start: Text, items: seq<Property>, now: Text, left: seq<Property>) {
    && (AllFit(items) <==> AllFit(left))
    && start + Front(items) == now + Front(left)
  }

  lemma OnePut(start: Text, items: seq<Property>, now: Text, item: Option<Property>, left: seq<Property>)
    requires Pending(start, items, now, Cons(item, left))
    ensures item.Some? && !item.value.Fits() ==> !AllFit(items) && start + Front(items) == now + item.value.Printed()
    ensures item.Some? && item.value.Fits() ==> Pending(start, items, now + item.value.Printed(), left)
    ensures item.None? ==> Pending(start, items, now + [], left)
  {
    ConsFits(item, left);
    ConsFront(item, left);
    EmptyJoin(now);
    if item.Some? {
      hide Property.Printed;
      EmptyJoin(item.value.Printed());
      Associative(now, item.value.Printed(), Front(left));
    }
  }

  lemma SomePut(start: Text, items: seq<Property>, now: Text, a: seq<Property>, left: seq<Property>)
    requires Pending(start, items, now, a + left)
    ensures !AllFit(a) ==> !AllFit(items) && start + Front(items) == now + Front(a)
    ensures AllFit(a) ==> Pending(start, items, now + Front(a), left)
  {
    AllFitJoin(a, left);
    FrontJoin(a, left);
    EmptyJoin(Front(a));
    Associative(now, Front(a), Front(left));
  }

  lemma NonePending(start: Text, items: seq<Property>, now: Text)
    requires Pending(start, items, now, [])
    ensures AllFit(items) && now == start + Front(items)
  {
    EmptyJoin(now);
  }
}
