/** Topic filters: splitting a path into levels, and libs/service/src/filter_util.rs. */
module FilterUtil {
  import opened Types
  import opened Seqs

  const SLASH: byte := 0x2f
  const PLUS: byte := 0x2b
  const HASH: byte := 0x23
  const SHARE_PREFIX: Text := [0x24, 0x73, 0x68, 0x61, 0x72, 0x65]  // "$share"

  datatype Filter = Filter(shareName: Option<Text>, path: Text)

  /** The levels of a path: what lies between its slashes. */
  function Split(path: Text): (levels: seq<Text>)
    ensures |levels| > 0
  {
    if path == [] then [[]]
    else if path[0] == SLASH then [[]] + Split(path[1..])
    else
      var rest := Split(path[1..]);
      [[path[0]] + rest[0]] + rest[1..]
  }

  function Join(levels: seq<Text>): Text
    requires |levels| > 0
  {
    if |levels| == 1 then levels[0] else levels[0] + [SLASH] + Join(levels[1..])
  }

  predicate HasWildcards(s: Text) {
    PLUS in s || HASH in s
  }

  predicate ValidTopic(topic: Text) {
    topic != [] && !HasWildcards(topic)
  }

  predicate ValidFilter(filter: Text) {
    filter != [] && forall level <- Split(filter) :: HasWildcards(level) ==> |level| == 1
  }

  /** The first slash of s, or None (`split_once`). */
  function FindSlash(s: Text): (r: Option<nat>)
    ensures r.Some? ==> r.value < |s| && s[r.value] == SLASH && SLASH !in s[..r.value]
    ensures r.None? ==> SLASH !in s
  {
    if s == [] then None
    else if s[0] == SLASH then Some(0)
    else match FindSlash(s[1..])
      case None => None
      case Some(i) => Some(i + 1)
  }

  /** What follows "$share/". */
  function ParseShared(rest: Text): Option<Filter> {
    match FindSlash(rest)
    case None => None
    case Some(i) =>
      var shareName, path := rest[..i], rest[i + 1..];
      if HasWildcards(shareName) || !ValidFilter(path) then None
      else Some(Filter(Some(shareName), path))
  }

  function ParseFilter(filter: Text): Option<Filter> {
    if SHARE_PREFIX <= filter then
      var tail := filter[|SHARE_PREFIX|..];
      if tail == [] || tail[0] != SLASH || tail == [SLASH] then None
      else ParseShared(tail[1..])
    else if ValidFilter(filter) then Some(Filter(None, filter))
    else None
  }

  /** The text a filter is written as. */
  function Print(f: Filter): Text {
    match f.shareName
    case None => f.path
    case Some(name) => SHARE_PREFIX + [SLASH] + name + [SLASH] + f.path
  }

  /** The filters a client can name. */
  predicate Nameable(f: Filter) {
    && ValidFilter(f.path)
    && match f.shareName
       case None => !(SHARE_PREFIX <= f.path)
       case Some(name) => SLASH !in name && !HasWildcards(name)
  }

  // ----- Split and Join undo each other -----

  lemma {:induction false} SplitLevels(path: Text)
    ensures forall level <- Split(path) :: SLASH !in level
    ensures Join(Split(path)) == path
  {
    if path != [] {
      SplitLevels(path[1..]);
      var rest := Split(path[1..]);
      if path[0] == SLASH {
        assert Split(path)[1..] == rest;
      } else {
        assert Split(path)[1..] == rest[1..];
        assert path == [path[0]] + path[1..];
      }
    }
  }

  lemma {:induction false} SplitOfLevel(level: Text)
    requires SLASH !in level
    ensures Split(level) == [level]
  {
    if level != [] {
      assert level == [level[0]] + level[1..];
      SplitOfLevel(level[1..]);
    }
  }

  lemma {:induction false} SplitOfPrefixed(level: Text, rest: Text)
    requires SLASH !in level
    ensures Split(level + [SLASH] + rest) == [level] + Split(rest)
  {
    var path := level + [SLASH] + rest;
    if level == [] {
      assert path[1..] == rest;
    } else {
      assert path[1..] == level[1..] + [SLASH] + rest;
      assert path[0] == level[0] && level == [level[0]] + level[1..];
      SplitOfPrefixed(level[1..], rest);
    }
  }

  lemma {:induction false} SplitJoin(levels: seq<Text>)
    requires |levels| > 0
    requires forall level <- levels :: SLASH !in level
    ensures Split(Join(levels)) == levels
  {
    if |levels| == 1 {
      SplitOfLevel(levels[0]);
    } else {
      SplitJoin(levels[1..]);
      SplitOfPrefixed(levels[0], Join(levels[1..]));
    }
  }

  /** Different paths have different levels. */
  lemma SplitInjective(a: Text, b: Text)
    requires Split(a) == Split(b)
    ensures a == b
  {
    SplitLevels(a);
    SplitLevels(b);
  }

  // ----- ParseFilter accepts exactly the printed forms of nameable filters -----

  lemma ParseSharedSound(rest: Text)
    requires ParseShared(rest).Some?
    ensures Nameable(ParseShared(rest).value)
    ensures Print(ParseShared(rest).value) == SHARE_PREFIX + [SLASH] + rest
  {
    hide ValidFilter, HasWildcards;
    var i := FindSlash(rest).value;
    assert rest == rest[..i] + [SLASH] + rest[i + 1..];
    Regrouped(SHARE_PREFIX + [SLASH], rest[..i], [SLASH], rest[i + 1..]);
  }

  lemma Recovered(prefix: Text, b: byte, text: Text)
    requires prefix + [b] <= text
    ensures text == prefix + [b] + text[|prefix|..][1..]
  {
    assert text[|prefix|..][1..] == text[|prefix| + 1..];
  }

  lemma ParseSound(text: Text)
    requires ParseFilter(text).Some?
    ensures Nameable(ParseFilter(text).value)
    ensures Print(ParseFilter(text).value) == text
  {
    if SHARE_PREFIX <= text {
      var tail := text[|SHARE_PREFIX|..];
      ParseSharedSound(tail[1..]);
      Recovered(SHARE_PREFIX, SLASH, text);
    }
  }

  lemma {:induction false} FindSlashAfter(name: Text, rest: Text)
    requires SLASH !in name
    ensures FindSlash(name + [SLASH] + rest) == Some(|name|)
  {
    var s := name + [SLASH] + rest;
    if name != [] {
      assert s[0] == name[0];
      assert s[1..] == name[1..] + [SLASH] + rest;
      FindSlashAfter(name[1..], rest);
    }
  }

  lemma SharedComplete(name: Text, path: Text)
    requires Nameable(Filter(Some(name), path))
    ensures ParseShared(name + [SLASH] + path) == Some(Filter(Some(name), path))
  {
    FindSlashAfter(name, path);
    hide ValidFilter, HasWildcards, FindSlash;
    var rest := name + [SLASH] + path;
    assert rest[..|name|] == name && rest[|name| + 1..] == path;
  }

  lemma SharedText(name: Text, path: Text)
    ensures var (text, rest) := (Print(Filter(Some(name), path)), name + [SLASH] + path);
            SHARE_PREFIX <= text && text[|SHARE_PREFIX|..] == [SLASH] + rest
  {
    Regrouped(SHARE_PREFIX, [SLASH], name, [SLASH] + path);
    var rest := name + [SLASH] + path;
    assert Print(Filter(Some(name), path)) == SHARE_PREFIX + ([SLASH] + rest);
    CutEarly(SHARE_PREFIX, [SLASH] + rest, |SHARE_PREFIX|);
  }

  lemma ParseComplete(f: Filter)
    requires Nameable(f)
    ensures ParseFilter(Print(f)) == Some(f)
  {
    if f.shareName.Some? {
      SharedComplete(f.shareName.value, f.path);
      SharedText(f.shareName.value, f.path);
      hide Print, ParseShared, Nameable;
      TailOfJoin([SLASH], f.shareName.value + [SLASH] + f.path);
    }
  }

  // ----- the same, byte by byte -----

  predicate IsWildcard(b: byte) {
    b == 0x2b || b == 0x23
  }

  /** A byte that is "+" or "#" has a level to itself: a slash or an end on either side. Before the front
      there is one if `open`. */
  predicate ApartAt(text: Text, open: bool, i: nat)
    requires i < |text|
  {
    IsWildcard(text[i]) ==>
      && (if i == 0 then open else text[i - 1] == 0x2f)
      && (i + 1 == |text| || text[i + 1] == 0x2f)
  }

  predicate Apart(text: Text, open: bool) {
    forall i | 0 <= i < |text| :: ApartAt(text, open, i)
  }

  predicate LevelOk(level: Text) {
    HasWildcards(level) ==> |level| == 1
  }

  predicate LevelsOk(levels: seq<Text>) {
    forall i | 0 <= i < |levels| :: LevelOk(levels[i])
  }

  lemma ApartStep(text: Text, open: bool)
    requires text != []
    ensures Apart(text, open) <==> ApartAt(text, open, 0) && Apart(text[1..], text[0] == 0x2f)
  {
    var rest, slash := text[1..], text[0] == 0x2f;
    if ApartAt(text, open, 0) && Apart(rest, slash) {
      forall i | 0 <= i < |text| ensures ApartAt(text, open, i) {
        if i > 0 {
          ApartLater(text, open, i);
        }
      }
    }
    if Apart(text, open) {
      forall i | 0 <= i < |rest| ensures ApartAt(rest, slash, i) {
        ApartLater(text, open, i + 1);
      }
    }
  }

  lemma ApartLater(text: Text, open: bool, i: nat)
    requires 0 < i < |text|
    ensures ApartAt(text, open, i) <==> ApartAt(text[1..], text[0] == 0x2f, i - 1)
  {
  }

  lemma {:induction false} ApartIff(text: Text, open: bool)
    ensures var levels := Split(text);
      Apart(text, open) <==> LevelsOk(levels[1..]) && if open then LevelOk(levels[0]) else !HasWildcards(levels[0])
  {
    hide Apart, LevelsOk;
    if text == [] {
      NoBytes(open);
    } else {
      var (rest, levels) := (Split(text[1..]), Split(text));
      ApartStep(text, open);
      ApartIff(text[1..], text[0] == SLASH);
      assert rest[0] == [] <==> |text| == 1 || text[1] == SLASH;
      if text[0] == SLASH {
        assert levels[1..] == rest;
        FirstOk(rest);
      } else {
        assert levels[1..] == rest[1..];
        FirstByte(text[0], rest[0]);
      }
    }
  }

  lemma NoBytes(open: bool)
    ensures Apart([], open) && LevelsOk([[]][1..])
  {
  }

  lemma FirstOk(levels: seq<Text>)
    requires levels != []
    ensures LevelsOk(levels) <==> LevelOk(levels[0]) && LevelsOk(levels[1..])
  {
    assert levels == [levels[0]] + levels[1..];
  }

  lemma FirstByte(b: byte, level: Text)
    ensures HasWildcards([b] + level) <==> IsWildcard(b) || HasWildcards(level)
  {
    assert ([b] + level)[0] == b;
  }

  lemma ValidFilterIff(text: Text)
    ensures ValidFilter(text) <==> text != [] && Apart(text, true)
  {
    ApartIff(text, true);
    FirstOk(Split(text));
    assert (forall level <- Split(text) :: LevelOk(level)) <==> LevelsOk(Split(text));
  }

  const SHARE: Text := [0x24, 0x73, 0x68, 0x61, 0x72, 0x65, 0x2f]  // "$share/"

  /** Exactly which texts are filters, and of what: a path in which wildcards are apart, or "$share/",
      a name without slashes and wildcards, a slash and such a path. */
  lemma ParseExact(text: Text, f: Filter)
    ensures ParseFilter(text) == Some(f) <==>
      && f.path != [] && Apart(f.path, true)
      && match f.shareName
         case None => text == f.path && !(SHARE[..6] <= text)
         case Some(name) => text == SHARE + name + [0x2f] + f.path && forall b <- name :: b != 0x2f && !IsWildcard(b)
  {
    ValidFilterIff(f.path);
    assert SHARE[..6] == SHARE_PREFIX && SHARE == SHARE_PREFIX + [SLASH];
    hide ValidFilter, Apart, ParseFilter;
    if ParseFilter(text) == Some(f) {
      ParseSound(text);
    }
    if Nameable(f) && text == Print(f) {
      ParseComplete(f);
    }
  }
}
