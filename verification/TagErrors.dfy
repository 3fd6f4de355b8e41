/** Exactly which struct tags `parseConfigTag` in `config/load.go` accepts, what it makes of them, and which error it gives
    for the others, told from the text alone. */
module TagErrors {
  import opened Wrappers
  import opened ConfigTag

  // ---------- What a part says ----------

  /** The first colon of the part, which is not its first character. */
  ghost predicate ColonAt(part: string, i: int) {
    0 < i < |part| && part[i] == ':' && ':' !in part[..i]
  }

  ghost predicate HasColon(part: string) {
    exists i :: ColonAt(part, i)
  }

  /** The text is this one with space around it. */
  ghost predicate IsAround(s: string, core: string) {
    Trimmed(core) && exists before, after :: Surrounds(s, before, core, after)
  }

  ghost predicate Surrounds(s: string, before: string, core: string, after: string) {
    AllSpace(before) && AllSpace(after) && s == before + core + after
  }

  /** The part gives this value to this name. */
  ghost predicate Says(part: string, name: string, value: string) {
    !AllSpace(part) && exists i :: ColonAt(part, i) && IsAround(part[..i], name) && IsAround(part[i + 1..], value)
  }

  /** The part is blank, or has a name and a value, and the value of a boolean is one. */
  ghost predicate Good(part: string) {
    || AllSpace(part)
    || exists name, value :: Says(part, name, value) && (name in ["lazy", "watch"] ==> ParseBool(value).Some?)
  }

  /** This is the last value given to the name. */
  ghost predicate SaysLast(parts: seq<string>, name: string, value: string) {
    exists i :: SaysLastAt(parts, i, name, value)
  }

  ghost predicate SaysLastAt(parts: seq<string>, i: int, name: string, value: string) {
    0 <= i < |parts| && Says(parts[i], name, value) && forall j, v :: i < j < |parts| ==> !Says(parts[j], name, v)
  }

  ghost predicate Silent(parts: seq<string>, name: string) {
    forall i, v :: 0 <= i < |parts| ==> !Says(parts[i], name, v)
  }

  ghost predicate AllGood(parts: seq<string>) {
    forall i :: 0 <= i < |parts| ==> Good(parts[i])
  }

  ghost predicate FirstBad(parts: seq<string>, i: int) {
    0 <= i < |parts| && !Good(parts[i]) && forall j :: 0 <= j < i ==> Good(parts[j])
  }

  // ---------- What the parser sees of a part ----------

  lemma {:induction false} TrimLeftSplits(s: string) returns (before: string)
    ensures AllSpace(before) && s == before + TrimLeft(s)
    decreases |s|
  {
    if s != [] && IsSpace(s[0]) {
      var more := TrimLeftSplits(s[1..]);
      before := [s[0]] + more;
    } else {
      before := [];
    }
  }

  lemma {:induction false} TrimRightSplits(s: string) returns (after: string)
    ensures AllSpace(after) && s == TrimRight(s) + after
    decreases |s|
  {
    if s != [] && IsSpace(s[|s| - 1]) {
      var more := TrimRightSplits(s[..|s| - 1]);
      after := more + [s[|s| - 1]];
      assert s == s[..|s| - 1] + [s[|s| - 1]];
    } else {
      after := [];
    }
  }

  /** Trimming takes away the space around a text, and nothing else. */
  lemma TrimIsAround(s: string)
    ensures IsAround(s, TrimSpace(s))
  {
    var before := TrimLeftSplits(s);
    var after := TrimRightSplits(TrimLeft(s));
    TrimSpaceFacts(s);
    assert Surrounds(s, before, TrimSpace(s), after);
  }

  lemma AroundIsTrim(s: string, core: string)
    requires IsAround(s, core)
    ensures core == TrimSpace(s)
  {
    var b, a :| Surrounds(s, b, core, a);
    TrimAround(b, core, a);
  }

  lemma SpaceIsTrimmed(s: string)
    ensures AllSpace(s) <==> TrimSpace(s) == ""
  {
    if AllSpace(s) {
      assert Surrounds(s, s, "", "");
      AroundIsTrim(s, "");
    }
    TrimIsAround(s);
    var b, a :| Surrounds(s, b, TrimSpace(s), a);
    if TrimSpace(s) == "" {
      assert s == b + a;
    }
  }

  function Name(part: string): string {
    TrimSpace(part[..Index(part, ':')])
  }

  function Value(part: string): string {
    var i := Index(part, ':');
    if i < |part| then TrimSpace(part[i + 1..]) else ""
  }

  predicate Speaks(part: string) {
    TrimSpace(part) != "" && 0 < Index(part, ':') < |part|
  }

  lemma NoneBefore(part: string, n: nat)
    requires n <= |part| && ':' !in part[..n]
    ensures forall k :: 0 <= k < n ==> part[k] != ':'
  {
    forall k | 0 <= k < n ensures part[k] != ':' {
      assert part[..n][k] == part[k];
    }
  }

  lemma ColonIsIndex(part: string)
    ensures HasColon(part) <==> 0 < Index(part, ':') < |part|
    ensures forall i :: ColonAt(part, i) ==> i == Index(part, ':')
  {
    var n := Index(part, ':');
    forall i | ColonAt(part, i) ensures i == n {
      NoneBefore(part, n);
      NoneBefore(part, i);
    }
    if 0 < n < |part| {
      assert ColonAt(part, n);
    }
  }

  lemma SaysIs(part: string)
    ensures forall name, value :: Says(part, name, value) <==> Speaks(part) && name == Name(part) && value == Value(part)
    ensures AllSpace(part) <==> TrimSpace(part) == ""
  {
    SpaceIsTrimmed(part);
    forall name, value ensures Says(part, name, value) <==> Speaks(part) && name == Name(part) && value == Value(part) {
      SaysThis(part, name, value);
    }
  }

  lemma SaysThis(part: string, name: string, value: string)
    ensures Says(part, name, value) <==> Speaks(part) && name == Name(part) && value == Value(part)
  {
    if Says(part, name, value) {
      SaysOnly(part, name, value);
    }
    if Speaks(part) {
      SpeaksSays(part);
    }
  }

  lemma SaysOnly(part: string, name: string, value: string)
    requires Says(part, name, value)
    ensures Speaks(part) && name == Name(part) && value == Value(part)
  {
    var i :| ColonAt(part, i) && IsAround(part[..i], name) && IsAround(part[i + 1..], value);
    ColonIsIndex(part);
    SpaceIsTrimmed(part);
    AroundIsTrim(part[..i], name);
    AroundIsTrim(part[i + 1..], value);
  }

  lemma SpeaksSays(part: string)
    requires Speaks(part)
    ensures Says(part, Name(part), Value(part))
  {
    var n := Index(part, ':');
    assert ColonAt(part, n);
    SpaceIsTrimmed(part);
    TrimIsAround(part[..n]);
    TrimIsAround(part[n + 1..]);
  }

  lemma GoodIs(part: string)
    ensures Good(part) <==> TrimSpace(part) == ""
                            || (Speaks(part) && (Name(part) in ["lazy", "watch"] ==> ParseBool(Value(part)).Some?))
  {
    SaysIs(part);
    if Speaks(part) {
      assert Says(part, Name(part), Value(part));
    }
  }

  lemma TakePartIs(tag: Tag, part: string)
    ensures TakePart(tag, part) == if TrimSpace(part) == "" then Ok(tag)
                                   else if !Speaks(part) then Err(Invalid)
                                   else Assigned(tag, Name(part), Value(part))
    ensures TakePart(tag, part).Ok? <==> Good(part)
  {
    GoodIs(part);
    AssignedOk(tag, Name(part), Value(part));
  }

  lemma AssignedOk(tag: Tag, name: string, value: string)
    ensures Assigned(tag, name, value).Ok? <==> (name in ["lazy", "watch"] ==> ParseBool(value).Some?)
  {
  }

  // ---------- The first fault ----------

  lemma {:induction false} FirstFault(tag: Tag, parts: seq<string>, i: nat)
    requires FirstBad(parts, i)
    ensures TakeParts(tag, parts) == TakePart(tag, parts[i])
    decreases |parts|
  {
    TakePartIs(tag, parts[0]);
    if i > 0 {
      var next := TakePart(tag, parts[0]).value;
      assert FirstBad(parts[1..], i - 1) by {
        assert forall j :: 0 <= j < i - 1 ==> parts[1..][j] == parts[j + 1];
      }
      FirstFault(next, parts[1..], i - 1);
      BadForAll(tag, next, parts[i]);
    }
  }

  lemma BadForAll(tag: Tag, other: Tag, part: string)
    requires !Good(part)
    ensures TakePart(tag, part) == TakePart(other, part) && TakePart(tag, part).Err?
  {
    TakePartIs(tag, part);
    TakePartIs(other, part);
  }

  // ---------- The last values ----------

  function Given(parts: seq<string>, name: string): Option<string> {
    if parts == [] then None
    else
      var last := parts[|parts| - 1];
      if Speaks(last) && Name(last) == name then Some(Value(last)) else Given(parts[..|parts| - 1], name)
  }

  lemma {:induction false} GivenIs(parts: seq<string>, name: string)
    ensures if Given(parts, name).Some? then SaysLast(parts, name, Given(parts, name).value) else Silent(parts, name)
    decreases |parts|
  {
    if parts != [] {
      var n := |parts| - 1;
      var front, last := parts[..n], parts[n];
      SaysIs(last);
      assert parts == front + [last];
      if Speaks(last) && Name(last) == name {
        assert SaysLastAt(parts, n, name, Value(last));
      } else {
        GivenIs(front, name);
        if Given(front, name).Some? {
          StillLast(front, last, name, Given(front, name).value);
        } else {
          StillSilent(front, last, name);
        }
      }
    }
  }

  lemma StillLast(front: seq<string>, last: string, name: string, v: string)
    requires SaysLast(front, name, v) && forall w :: !Says(last, name, w)
    ensures SaysLast(front + [last], name, v)
  {
    var i :| SaysLastAt(front, i, name, v);
    var parts := front + [last];
    forall j, w | i < j < |parts| ensures !Says(parts[j], name, w) {
      assert parts[j] == if j < |front| then front[j] else last;
    }
    assert parts[i] == front[i] && SaysLastAt(parts, i, name, v);
  }

  lemma StillSilent(front: seq<string>, last: string, name: string)
    requires Silent(front, name) && forall w :: !Says(last, name, w)
    ensures Silent(front + [last], name)
  {
    var parts := front + [last];
    forall i, w | 0 <= i < |parts| ensures !Says(parts[i], name, w) {
      assert parts[i] == if i < |front| then front[i] else last;
    }
  }

  /** There is one last value at most. */
  lemma OneLast(parts: seq<string>, name: string, v: string, w: string)
    requires SaysLast(parts, name, v) && SaysLast(parts, name, w)
    ensures v == w
  {
    var i :| SaysLastAt(parts, i, name, v);
    var j :| SaysLastAt(parts, j, name, w);
    SaysIs(parts[i]);
    assert i == j;
  }

  lemma {:induction false} TakeLast(tag: Tag, parts: seq<string>)
    requires parts != []
    ensures TakeParts(tag, parts) == match TakeParts(tag, parts[..|parts| - 1])
                                     case Err(e) => Err(e)
                                     case Ok(before) => TakePart(before, parts[|parts| - 1])
    decreases |parts|
  {
    if |parts| > 1 {
      var next, front := TakePart(tag, parts[0]), parts[..|parts| - 1];
      assert front[0] == parts[0] && parts[1..][..|parts| - 2] == front[1..];
      assert parts[1..][|parts| - 2] == parts[|parts| - 1];
      if next.Ok? {
        TakeLast(next.value, parts[1..]);
      }
    } else {
      assert parts[1..] == [];
    }
  }

  function TextOf(given: Option<string>): string {
    OrElse(given, "")
  }

  function BoolOf(given: Option<string>): bool {
    match given
    case None => false
    case Some(v) => OrElse(ParseBool(v), false)
  }

  lemma {:induction false} GoodPartsTaken(parts: seq<string>)
    requires AllGood(parts)
    ensures TakeParts(EMPTY_TAG, parts)
            == Ok(Tag(TextOf(Given(parts, "namespace")), TextOf(Given(parts, "key")), TextOf(Given(parts, "format")),
                      BoolOf(Given(parts, "lazy")), BoolOf(Given(parts, "watch"))))
    decreases |parts|
  {
    if parts != [] {
      var front, last := parts[..|parts| - 1], parts[|parts| - 1];
      assert AllGood(front) && Good(last);
      GoodPartsTaken(front);
      TakeLast(EMPTY_TAG, parts);
      GoodIs(last);
      TakePartIs(TakeParts(EMPTY_TAG, front).value, last);
    }
  }

  // ---------- The law ----------

  /** The text field holds what was last said, or nothing. */
  ghost predicate HoldsText(parts: seq<string>, name: string, text: string) {
    SaysLast(parts, name, text) || (Silent(parts, name) && text == "")
  }

  ghost predicate HoldsBool(parts: seq<string>, name: string, b: bool) {
    (exists v :: SaysLast(parts, name, v) && ParseBool(v) == Some(b)) || (Silent(parts, name) && !b)
  }

  /** The name is last given a value that is not empty. */
  ghost predicate IsGiven(parts: seq<string>, name: string) {
    exists v :: v != "" && SaysLast(parts, name, v)
  }

  lemma GivenHolds(parts: seq<string>, name: string)
    ensures HoldsText(parts, name, TextOf(Given(parts, name)))
    ensures TextOf(Given(parts, name)) != "" <==> IsGiven(parts, name)
  {
    GivenIs(parts, name);
    if v :| v != "" && SaysLast(parts, name, v) {
      var i :| SaysLastAt(parts, i, name, v);
      assert !Silent(parts, name);
      OneLast(parts, name, v, Given(parts, name).value);
    }
  }

  lemma GivenHoldsBool(parts: seq<string>, name: string)
    requires AllGood(parts) && name in ["lazy", "watch"]
    ensures HoldsBool(parts, name, BoolOf(Given(parts, name)))
  {
    GivenIs(parts, name);
    if Given(parts, name).Some? {
      var v := Given(parts, name).value;
      var i :| SaysLastAt(parts, i, name, v);
      SaysIs(parts[i]);
      GoodIs(parts[i]);
    }
  }

  /** A tag is accepted exactly when every part is good and the last key and the last namespace are there and not empty;
      then every field holds what was last said of it.  Otherwise the first bad part decides the error: no name or no
      colon, a bad `lazy`, or a bad `watch`; and if no part is bad, the key or the namespace is missing. */
  lemma ParsesExactlyWhen(text: string)
    ensures var parts, r := Split(text, ';'), Parse(text);
            && (r.Ok? <==> AllGood(parts) && IsGiven(parts, "key") && IsGiven(parts, "namespace"))
            && (r.Ok? ==> Holds(parts, r.value))
            && (forall i :: FirstBad(parts, i) ==> r.Err? && IsFault(parts[i], r.error))
            && (AllGood(parts) && r.Err? ==> r.error == Missing)
  {
    var parts := Split(text, ';');
    if AllGood(parts) {
      GoodPartsTaken(parts);
      GivenHolds(parts, "key");
      GivenHolds(parts, "namespace");
      GivenHolds(parts, "format");
      GivenHoldsBool(parts, "lazy");
      GivenHoldsBool(parts, "watch");
    } else {
      var i := FirstBadPart(parts);
      forall i | FirstBad(parts, i) ensures Parse(text).Err? && IsFault(parts[i], Parse(text).error) {
        FirstFault(EMPTY_TAG, parts, i);
        FaultIs(parts[i]);
      }
    }
  }

  ghost predicate Holds(parts: seq<string>, tag: Tag) {
    && HoldsText(parts, "namespace", tag.namespace) && HoldsText(parts, "key", tag.key)
    && HoldsText(parts, "format", tag.format)
    && HoldsBool(parts, "lazy", tag.lazy) && HoldsBool(parts, "watch", tag.watch)
  }

  /** The error that a bad part gives. */
  ghost predicate IsFault(part: string, error: TagError) {
    && (!HasColon(part) ==> error == Invalid)
    && (forall v :: Says(part, "lazy", v) ==> error == InvalidLazy)
    && (forall v :: Says(part, "watch", v) ==> error == InvalidWatch)
  }

  lemma FirstBadPart(parts: seq<string>) returns (i: nat)
    requires !AllGood(parts)
    ensures FirstBad(parts, i)
  {
    i := 0;
    while Good(parts[i])
      invariant i < |parts| && forall j :: 0 <= j < i ==> Good(parts[j])
      decreases |parts| - i
    {
      i := i + 1;
    }
  }

  lemma FaultIs(part: string)
    requires !Good(part)
    ensures TakePart(EMPTY_TAG, part).Err? && IsFault(part, TakePart(EMPTY_TAG, part).error)
  {
    TakePartIs(EMPTY_TAG, part);
    GoodIs(part);
    if Speaks(part) {
      NotABoolean(Name(part), Value(part));
    }
    FaultIsThis(part, TakePart(EMPTY_TAG, part).error);
  }

  lemma FaultIsThis(part: string, error: TagError)
    requires !Speaks(part) ==> error == Invalid
    requires Speaks(part) && Name(part) == "lazy" ==> error == InvalidLazy
    requires Speaks(part) && Name(part) == "watch" ==> error == InvalidWatch
    ensures IsFault(part, error)
  {
    ColonIsIndex(part);
    SaysIs(part);
  }

  lemma NotABoolean(name: string, value: string)
    requires name in ["lazy", "watch"] && ParseBool(value).None?
    ensures name == "lazy" ==> Assigned(EMPTY_TAG, name, value) == Err(InvalidLazy)
    ensures name == "watch" ==> Assigned(EMPTY_TAG, name, value) == Err(InvalidWatch)
  {
  }

  /** The parts are the text between its semicolons. */
  lemma {:induction false} SplitIsInverse(s: string)
    ensures Join(Split(s, ';'), ';') == s
    ensures forall i :: 0 <= i < |Split(s, ';')| ==> ';' !in Split(s, ';')[i]
    decreases |s|
  {
    SplitHasNo(s, ';');
    if s != [] {
      SplitIsInverse(s[1..]);
      var rest := Split(s[1..], ';');
      assert s == [s[0]] + s[1..];
      if s[0] == ';' {
        assert ([[]] + rest)[1..] == rest;
      } else if |rest| > 1 {
        assert ([[s[0]] + rest[0]] + rest[1..])[1..] == rest[1..];
      }
    }
  }

  /** These twelve texts are booleans, and no others. */
  lemma BooleansAre(s: string)
    ensures ParseBool(s) == Some(true) <==> s in ["1", "t", "T", "TRUE", "true", "True"]
    ensures ParseBool(s) == Some(false) <==> s in ["0", "f", "F", "FALSE", "false", "False"]
  {
  }

  /** The characters that count as space, by their code points. */
  lemma SpacesAre(c: char)
    ensures IsSpace(c) <==>
            var n := c as int;
            || 9 <= n <= 13 || n in {32, 133, 160, 5760, 8232, 8233, 8239, 8287, 12288} || 8192 <= n <= 8202
  {
  }
}
