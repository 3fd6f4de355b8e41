/** Struct tags such as `namespace:test/demo1;key:addr;format:yaml;lazy:true`: `parseConfigTag` in `config/load.go`. */
module ConfigTag {
  import opened Wrappers

  datatype Tag = Tag(namespace: string, key: string, format: string, lazy: bool, watch: bool)

  datatype TagError = Invalid | InvalidLazy | InvalidWatch | Missing

  const EMPTY_TAG := Tag("", "", "", false, false)

  // ---------- Strings ----------

  /** `unicode.IsSpace`. */
  predicate IsSpace(c: char) {
    || '\t' <= c <= '\r' || c == ' ' || c == '\U{85}' || c == '\U{A0}' || c == '\U{1680}'
    || '\U{2000}' <= c <= '\U{200A}' || c == '\U{2028}' || c == '\U{2029}' || c == '\U{202F}'
    || c == '\U{205F}' || c == '\U{3000}'
  }

  predicate AllSpace(s: string) {
    forall i :: 0 <= i < |s| ==> IsSpace(s[i])
  }

  function TrimLeft(s: string): string {
    if s != [] && IsSpace(s[0]) then TrimLeft(s[1..]) else s
  }

  function TrimRight(s: string): string {
    if s != [] && IsSpace(s[|s| - 1]) then TrimRight(s[..|s| - 1]) else s
  }

  /** `strings.TrimSpace`. */
  function TrimSpace(s: string): string {
    TrimRight(TrimLeft(s))
  }

  predicate Trimmed(s: string) {
    s != [] ==> !IsSpace(s[0]) && !IsSpace(s[|s| - 1])
  }

  /** `strings.Index` for one character, with the length instead of -1. */
  function Index(s: string, c: char): (i: nat)
    ensures i <= |s| && c !in s[..i] && (i < |s| ==> s[i] == c)
  {
    if s == [] || s[0] == c then 0 else 1 + Index(s[1..], c)
  }

  /** `strings.Split` at one character. */
  function Split(s: string, c: char): (parts: seq<string>)
    ensures parts != []
  {
    if s == [] then [[]]
    else
      var rest := Split(s[1..], c);
      if s[0] == c then [[]] + rest else [[s[0]] + rest[0]] + rest[1..]
  }

  function Join(parts: seq<string>, c: char): string {
    if parts == [] then [] else if |parts| == 1 then parts[0] else parts[0] + [c] + Join(parts[1..], c)
  }

  /** `strconv.ParseBool`. */
  function ParseBool(s: string): Option<bool> {
    if s in ["1", "t", "T", "TRUE", "true", "True"] then Some(true)
    else if s in ["0", "f", "F", "FALSE", "false", "False"] then Some(false)
    else None
  }

  // ---------- The parser ----------

  /** One assignment.  Unknown names are passed over. */
  function Assigned(tag: Tag, name: string, value: string): Result<Tag, TagError> {
    if name == "key" then Ok(tag.(key := value))
    else if name == "namespace" then Ok(tag.(namespace := value))
    else if name == "format" then Ok(tag.(format := value))
    else if name == "lazy" then
      (match ParseBool(value) case Some(b) => Ok(tag.(lazy := b)) case None => Err(InvalidLazy))
    else if name == "watch" then
      (match ParseBool(value) case Some(b) => Ok(tag.(watch := b)) case None => Err(InvalidWatch))
    else Ok(tag)
  }

  function TakePart(tag: Tag, part: string): Result<Tag, TagError> {
    if TrimSpace(part) == "" then Ok(tag)
    else
      var i := Index(part, ':');
      if i == 0 || i == |part| then Err(Invalid)
      else Assigned(tag, TrimSpace(part[..i]), TrimSpace(part[i + 1..]))
  }

  function TakeParts(tag: Tag, parts: seq<string>): Result<Tag, TagError>
    decreases |parts|
  {
    if parts == [] then Ok(tag)
    else
      match TakePart(tag, parts[0])
      case Ok(next) => TakeParts(next, parts[1..])
      case Err(e) => Err(e)
  }

  function Checked(r: Result<Tag, TagError>): Result<Tag, TagError> {
    if r.Ok? && (r.value.key == "" || r.value.namespace == "") then Err(Missing) else r
  }

  function Parse(tag: string): Result<Tag, TagError> {
    Checked(TakeParts(EMPTY_TAG, Split(tag, ';')))
  }

  method ParseConfigTag(tag: string) returns (r: Result<Tag, TagError>)
    ensures r == Parse(tag)
  {
    var ct := EMPTY_TAG;
    var kvs := Split(tag, ';');
    var n := 0;
    assert kvs[0..] == kvs;
    while n < |kvs|
      invariant 0 <= n <= |kvs|
      invariant TakeParts(ct, kvs[n..]) == TakeParts(EMPTY_TAG, kvs)
    {
      TakePartsStep(ct, kvs, n);
      var next := ParsePart(ct, kvs[n]);
      if next.Err? {
        return next;
      }
      ct := next.value;
      n := n + 1;
    }
    assert TakeParts(ct, []) == Ok(ct);
    if ct.key == "" || ct.namespace == "" {
      return Err(Missing);
    }
    return Ok(ct);
  }

  lemma TakePartsStep(tag: Tag, parts: seq<string>, n: nat)
    requires n < |parts|
    ensures TakeParts(tag, parts[n..]) ==
            match TakePart(tag, parts[n])
            case Ok(next) => TakeParts(next, parts[n + 1..])
            case Err(e) => Err(e)
  {
    assert parts[n..][1..] == parts[n + 1..];
  }

  /** The body of the loop over the parts. */
  method ParsePart(ct: Tag, kv: string) returns (r: Result<Tag, TagError>)
    ensures r == TakePart(ct, kv)
  {
    if TrimSpace(kv) == "" {
      return Ok(ct);
    }
    var i := Index(kv, ':');
    if i == 0 || i == |kv| {
      return Err(Invalid);
    }
    var key := TrimSpace(kv[..i]);
    var value := TrimSpace(kv[i + 1..]);
    r := AssignField(ct, key, value);
  }

  /** The switch over the names. */
  method AssignField(ct: Tag, key: string, value: string) returns (r: Result<Tag, TagError>)
    ensures r == Assigned(ct, key, value)
  {
    if key == "key" {
      return Ok(ct.(key := value));
    } else if key == "namespace" {
      return Ok(ct.(namespace := value));
    } else if key == "format" {
      return Ok(ct.(format := value));
    } else if key == "lazy" {
      var lazy := ParseBool(value);
      if lazy.None? {
        return Err(InvalidLazy);
      }
      return Ok(ct.(lazy := lazy.value));
    } else if key == "watch" {
      var watch := ParseBool(value);
      if watch.None? {
        return Err(InvalidWatch);
      }
      return Ok(ct.(watch := watch.value));
    }
    return Ok(ct);
  }

  // ---------- Printing ----------

  /** A part of a tag as someone may write it: blank, or a name and a value with space around each. */
  datatype Part =
    | Blank(space: string)
    | Assign(before: string, name: string, middle: string, padding: string, value: string, after: string)

  /** Names have no `:` and no `;`, values no `;`; neither has space at its ends, and a name is not empty. */
  predicate Proper(part: Part) {
    match part
    case Blank(space) => AllSpace(space)
    case Assign(before, name, middle, padding, value, after) =>
      && AllSpace(before) && AllSpace(middle) && AllSpace(padding) && AllSpace(after)
      && name != "" && Trimmed(name) && ':' !in name && ';' !in name
      && Trimmed(value) && ';' !in value
  }

  function Written(part: Part): string {
    match part
    case Blank(space) => space
    case Assign(before, name, middle, padding, value, after) => (before + name + middle) + ":" + (padding + value + after)
  }

  function AllWritten(parts: seq<Part>): (r: seq<string>)
    ensures |r| == |parts| && forall i :: 0 <= i < |r| ==> r[i] == Written(parts[i])
  {
    if parts == [] then [] else [Written(parts[0])] + AllWritten(parts[1..])
  }

  /** What the parts say, told without their text. */
  function Meaning(tag: Tag, parts: seq<Part>): Result<Tag, TagError>
    decreases |parts|
  {
    if parts == [] then Ok(tag)
    else match parts[0]
      case Blank(_) => Meaning(tag, parts[1..])
      case Assign(_, name, _, _, value, _) =>
        match Assigned(tag, name, value)
        case Ok(next) => Meaning(next, parts[1..])
        case Err(e) => Err(e)
  }

  // ---------- Splitting and trimming what was written ----------

  lemma {:induction false} SplitFirst(part: string, rest: string, c: char)
    requires c !in part
    ensures Split(part + [c] + rest, c) == [part] + Split(rest, c)
    decreases |part|
  {
    var s := part + [c] + rest;
    if part == [] {
      assert s[1..] == rest;
    } else {
      assert s[0] == part[0] && part[0] in part && s[1..] == part[1..] + [c] + rest;
      SplitFirst(part[1..], rest, c);
      assert [part[0]] + part[1..] == part;
    }
  }

  lemma {:induction false} SplitLast(part: string, c: char)
    requires c !in part
    ensures Split(part, c) == [part]
    decreases |part|
  {
    if part != [] {
      assert part[0] in part && part == [part[0]] + part[1..];
      SplitLast(part[1..], c);
    }
  }

  lemma {:induction false} SplitJoined(parts: seq<string>, c: char)
    requires parts != [] && forall i :: 0 <= i < |parts| ==> c !in parts[i]
    ensures Split(Join(parts, c), c) == parts
    decreases |parts|
  {
    if |parts| == 1 {
      SplitLast(parts[0], c);
    } else {
      SplitFirst(parts[0], Join(parts[1..], c), c);
      SplitJoined(parts[1..], c);
    }
  }

  lemma {:induction false} TrimLeftDrops(space: string, s: string)
    requires AllSpace(space)
    ensures TrimLeft(space + s) == TrimLeft(s)
    decreases |space|
  {
    if space == [] {
      assert space + s == s;
    } else {
      assert (space + s)[1..] == space[1..] + s;
      TrimLeftDrops(space[1..], s);
    }
  }

  lemma {:induction false} TrimRightDrops(s: string, space: string)
    requires AllSpace(space)
    ensures TrimRight(s + space) == TrimRight(s)
    decreases |space|
  {
    if space == [] {
      assert s + space == s;
    } else {
      assert (s + space)[..|s + space| - 1] == s + space[..|space| - 1];
      TrimRightDrops(s, space[..|space| - 1]);
    }
  }

  lemma TrimAround(before: string, s: string, after: string)
    requires AllSpace(before) && AllSpace(after) && Trimmed(s)
    ensures TrimSpace(before + s + after) == s
  {
    assert before + s + after == before + (s + after);
    TrimLeftDrops(before, s + after);
    if s == [] {
      TrimLeftDrops(after, []);
      assert [] + after == after && after + [] == after;
    } else {
      assert (s + after)[0] == s[0];
      TrimRightDrops(s, after);
    }
  }

  lemma {:induction false} IndexAfter(before: string, c: char, rest: string)
    requires c !in before
    ensures Index(before + [c] + rest, c) == |before|
    decreases |before|
  {
    if before != [] {
      assert before[0] in before && (before + [c] + rest)[1..] == before[1..] + [c] + rest;
      IndexAfter(before[1..], c, rest);
    }
  }

  lemma {:induction false} TrimNonEmpty(s: string, i: nat)
    requires i < |s| && !IsSpace(s[i])
    ensures TrimSpace(s) != ""
  {
    TrimLeftKeeps(s, i);
  }

  lemma {:induction false} TrimLeftKeeps(s: string, i: nat)
    requires i < |s| && !IsSpace(s[i])
    ensures TrimSpace(s) != ""
    decreases |s|
  {
    if IsSpace(s[0]) {
      TrimLeftKeeps(s[1..], i - 1);
    } else {
      TrimRightKeeps(s, i);
    }
  }

  lemma {:induction false} TrimRightKeeps(s: string, i: nat)
    requires i < |s| && !IsSpace(s[i])
    ensures TrimRight(s) != ""
    decreases |s|
  {
    if IsSpace(s[|s| - 1]) {
      TrimRightKeeps(s[..|s| - 1], i);
    }
  }

  lemma SpaceHasNo(space: string)
    requires AllSpace(space)
    ensures ':' !in space && ';' !in space
  {
  }

  /** One part is read as it was meant. */
  lemma PartRead(tag: Tag, part: Part)
    requires Proper(part)
    ensures ';' !in Written(part)
    ensures TakePart(tag, Written(part)) == if part.Blank? then Ok(tag) else Assigned(tag, part.name, part.value)
  {
    match part
    case Blank(space) =>
      SpaceHasNo(space);
      TrimAround(space, [], []);
      assert space + [] + [] == space;
    case Assign(before, name, middle, padding, value, after) =>
      var left, right := before + name + middle, padding + value + after;
      SpaceHasNo(before);
      SpaceHasNo(middle);
      SpaceHasNo(padding);
      SpaceHasNo(after);
      var s := Written(part);
      IndexAfter(left, ':', right);
      assert s[..|left|] == left && s[|left| + 1..] == right;
      TrimAround(before, name, middle);
      TrimAround(padding, value, after);
      assert !IsSpace(s[|left|]);
      TrimNonEmpty(s, |left|);
  }

  /** Whatever the order of the parts, the blank ones among them and the space around names and values, parsing gives
      what the parts say. */
  lemma WrittenTagParses(parts: seq<Part>)
    requires parts != [] && forall i :: 0 <= i < |parts| ==> Proper(parts[i])
    ensures Parse(Join(AllWritten(parts), ';')) == Checked(Meaning(EMPTY_TAG, parts))
  {
    forall i | 0 <= i < |parts| ensures ';' !in AllWritten(parts)[i] {
      PartRead(EMPTY_TAG, parts[i]);
    }
    SplitJoined(AllWritten(parts), ';');
    PartsRead(EMPTY_TAG, parts);
  }

  lemma {:induction false} PartsRead(tag: Tag, parts: seq<Part>)
    requires forall i :: 0 <= i < |parts| ==> Proper(parts[i])
    ensures TakeParts(tag, AllWritten(parts)) == Meaning(tag, parts)
    decreases |parts|
  {
    if parts != [] {
      PartRead(tag, parts[0]);
      assert AllWritten(parts)[1..] == AllWritten(parts[1..]);
      var next := TakePart(tag, Written(parts[0]));
      if next.Ok? {
        PartsRead(next.value, parts[1..]);
      }
    }
  }

  // ---------- The last assignment wins ----------

  function LastValue(parts: seq<Part>, name: string): Option<string> {
    if parts == [] then None
    else
      var last := parts[|parts| - 1];
      if last.Assign? && last.name == name then Some(last.value) else LastValue(parts[..|parts| - 1], name)
  }

  function OrElse<T>(o: Option<T>, default: T): T {
    match o case Some(v) => v case None => default
  }

  /** Every `lazy` and `watch` among the parts has a value that `ParseBool` takes. */
  predicate BoolsRead(parts: seq<Part>) {
    forall i :: 0 <= i < |parts| && parts[i].Assign? && parts[i].name in ["lazy", "watch"] ==> ParseBool(parts[i].value).Some?
  }

  function LastBool(parts: seq<Part>, name: string): bool {
    match LastValue(parts, name)
    case None => false
    case Some(v) => OrElse(ParseBool(v), false)
  }

  lemma {:induction false} MeaningLast(tag: Tag, parts: seq<Part>)
    requires parts != []
    ensures Meaning(tag, parts) ==
            match Meaning(tag, parts[..|parts| - 1])
            case Err(e) => Err(e)
            case Ok(before) =>
              var last := parts[|parts| - 1];
              if last.Blank? then Ok(before) else Assigned(before, last.name, last.value)
    decreases |parts|
  {
    if |parts| > 1 {
      var next := if parts[0].Blank? then Ok(tag) else Assigned(tag, parts[0].name, parts[0].value);
      assert parts[1..][..|parts| - 2] == parts[..|parts| - 1][1..];
      if next.Ok? {
        MeaningLast(next.value, parts[1..]);
      }
    } else {
      assert parts[1..] == [];
    }
  }

  /** The parts are refused exactly when some `lazy` or `watch` is not a boolean, and otherwise every field has the
      last value given to it. */
  lemma {:induction false} LastWins(parts: seq<Part>)
    ensures Meaning(EMPTY_TAG, parts).Ok? <==> BoolsRead(parts)
    ensures BoolsRead(parts) ==>
              Meaning(EMPTY_TAG, parts) == Ok(Tag(OrElse(LastValue(parts, "namespace"), ""), OrElse(LastValue(parts, "key"), ""),
                                                  OrElse(LastValue(parts, "format"), ""),
                                                  LastBool(parts, "lazy"), LastBool(parts, "watch")))
    decreases |parts|
  {
    if parts != [] {
      var front, last := parts[..|parts| - 1], parts[|parts| - 1];
      MeaningLast(EMPTY_TAG, parts);
      LastWins(front);
      BoolsReadStep(front, last);
      assert parts == front + [last];
    }
  }

  lemma BoolsReadStep(front: seq<Part>, last: Part)
    ensures BoolsRead(front + [last]) <==>
            BoolsRead(front) && (last.Assign? && last.name in ["lazy", "watch"] ==> ParseBool(last.value).Some?)
  {
    var parts := front + [last];
    assert parts[|front|] == last && forall i :: 0 <= i < |front| ==> front[i] == parts[i];
  }

  /** Printing any tag with a key and a namespace, in any of these ways, and parsing it gives the tag back. */
  lemma TagRoundTrip(tag: Tag, parts: seq<Part>)
    requires tag.key != "" && tag.namespace != ""
    requires (forall i :: 0 <= i < |parts| ==> Proper(parts[i])) && BoolsRead(parts)
    requires LastValue(parts, "key") == Some(tag.key) && LastValue(parts, "namespace") == Some(tag.namespace)
    requires OrElse(LastValue(parts, "format"), "") == tag.format
    requires LastBool(parts, "lazy") == tag.lazy && LastBool(parts, "watch") == tag.watch
    ensures Parse(Join(AllWritten(parts), ';')) == Ok(tag)
  {
    WrittenTagParses(parts);
    LastWins(parts);
  }

  // ---------- Every parsed tag can be printed ----------

  function Simple(name: string, value: string): Part {
    Assign("", name, "", "", value, "")
  }

  function BoolText(b: bool): string {
    if b then "true" else "false"
  }

  function FieldParts(tag: Tag): seq<Part> {
    [Simple("namespace", tag.namespace)] + [Simple("key", tag.key)] + [Simple("format", tag.format)]
    + [Simple("lazy", BoolText(tag.lazy))] + [Simple("watch", BoolText(tag.watch))]
  }

  /** The tag with all its fields, in a fixed order. */
  function Print(tag: Tag): string {
    Join(AllWritten(FieldParts(tag)), ';')
  }

  predicate Printable(tag: Tag) {
    && Trimmed(tag.namespace) && Trimmed(tag.key) && Trimmed(tag.format)
    && ';' !in tag.namespace && ';' !in tag.key && ';' !in tag.format
  }

  /** What parsing accepts is always a tag of that kind, and printing it gives text that parses to the same tag. */
  lemma ParsedPrints(text: string)
    requires Parse(text).Ok?
    ensures Printable(Parse(text).value) && Parse(Print(Parse(text).value)) == Parse(text)
  {
    SplitHasNo(text, ';');
    TakenPrintable(EMPTY_TAG, Split(text, ';'));
    PrintParses(Parse(text).value);
  }

  lemma LastValueAfter(parts: seq<Part>, name: string, value: string, other: string)
    ensures LastValue(parts + [Simple(name, value)], other) == if name == other then Some(value) else LastValue(parts, other)
  {
    assert (parts + [Simple(name, value)])[..|parts|] == parts;
  }

  lemma FieldValues(tag: Tag, name: string)
    ensures LastValue(FieldParts(tag), name) ==
            if name == "watch" then Some(BoolText(tag.watch))
            else if name == "lazy" then Some(BoolText(tag.lazy))
            else if name == "format" then Some(tag.format)
            else if name == "key" then Some(tag.key)
            else if name == "namespace" then Some(tag.namespace)
            else None
  {
    var a := [Simple("namespace", tag.namespace)];
    var b := a + [Simple("key", tag.key)];
    var c := b + [Simple("format", tag.format)];
    var d := c + [Simple("lazy", BoolText(tag.lazy))];
    LastValueAfter(d, "watch", BoolText(tag.watch), name);
    LastValueAfter(c, "lazy", BoolText(tag.lazy), name);
    LastValueAfter(b, "format", tag.format, name);
    LastValueAfter(a, "key", tag.key, name);
    LastValueAfter([], "namespace", tag.namespace, name);
    assert [] + a == a;
  }

  lemma PrintParses(tag: Tag)
    requires Printable(tag) && tag.key != "" && tag.namespace != ""
    ensures Parse(Print(tag)) == Ok(tag)
  {
    FieldValues(tag, "namespace");
    FieldValues(tag, "key");
    FieldValues(tag, "format");
    FieldValues(tag, "lazy");
    FieldValues(tag, "watch");
    FieldPartsProper(tag);
    TagRoundTrip(tag, FieldParts(tag));
  }

  lemma BoolTextReads(b: bool)
    ensures ParseBool(BoolText(b)) == Some(b) && Trimmed(BoolText(b)) && ';' !in BoolText(b)
  {
  }

  lemma FieldNamesProper()
    ensures forall name :: name in ["namespace", "key", "format", "lazy", "watch"] ==>
              name != "" && Trimmed(name) && ':' !in name && ';' !in name
  {
  }

  lemma FieldPartsProper(tag: Tag)
    requires Printable(tag)
    ensures BoolsRead(FieldParts(tag))
    ensures forall i :: 0 <= i < |FieldParts(tag)| ==> Proper(FieldParts(tag)[i])
    ensures ParseBool(BoolText(tag.lazy)) == Some(tag.lazy) && ParseBool(BoolText(tag.watch)) == Some(tag.watch)
  {
    BoolTextReads(tag.lazy);
    BoolTextReads(tag.watch);
    FieldNamesProper();
    var parts := FieldParts(tag);
    var names := ["namespace", "key", "format", "lazy", "watch"];
    var values := [tag.namespace, tag.key, tag.format, BoolText(tag.lazy), BoolText(tag.watch)];
    forall i | 0 <= i < |parts|
      ensures parts[i] == Simple(names[i], values[i]) && Proper(parts[i])
      ensures parts[i].name in ["lazy", "watch"] ==> ParseBool(parts[i].value).Some? {
      assert names[i] in names;
    }
  }

  lemma {:induction false} SplitHasNo(s: string, c: char)
    ensures forall i :: 0 <= i < |Split(s, c)| ==> c !in Split(s, c)[i]
    decreases |s|
  {
    if s != [] {
      SplitHasNo(s[1..], c);
    }
  }

  lemma {:induction false} TrimLeftFacts(s: string)
    ensures forall c :: c in TrimLeft(s) ==> c in s
    ensures TrimLeft(s) != [] ==> !IsSpace(TrimLeft(s)[0])
    decreases |s|
  {
    if s != [] && IsSpace(s[0]) {
      TrimLeftFacts(s[1..]);
    }
  }

  lemma {:induction false} TrimRightFacts(s: string)
    ensures forall c :: c in TrimRight(s) ==> c in s
    ensures TrimRight(s) != [] ==> s != [] && TrimRight(s)[0] == s[0] && !IsSpace(TrimRight(s)[|TrimRight(s)| - 1])
    decreases |s|
  {
    if s != [] && IsSpace(s[|s| - 1]) {
      TrimRightFacts(s[..|s| - 1]);
    }
  }

  lemma TrimSpaceFacts(s: string)
    ensures Trimmed(TrimSpace(s)) && forall c :: c in TrimSpace(s) ==> c in s
  {
    TrimLeftFacts(s);
    TrimRightFacts(TrimLeft(s));
  }

  lemma {:induction false} TakenPrintable(tag: Tag, parts: seq<string>)
    requires Printable(tag) && forall i :: 0 <= i < |parts| ==> ';' !in parts[i]
    ensures TakeParts(tag, parts).Ok? ==> Printable(TakeParts(tag, parts).value)
    decreases |parts|
  {
    if parts != [] {
      TakePartPrintable(tag, parts[0]);
      var next := TakePart(tag, parts[0]);
      if next.Ok? {
        TakenPrintable(next.value, parts[1..]);
      }
    }
  }

  lemma TakePartPrintable(tag: Tag, part: string)
    requires Printable(tag) && ';' !in part
    ensures TakePart(tag, part).Ok? ==> Printable(TakePart(tag, part).value)
  {
    var i := Index(part, ':');
    if 0 < i < |part| && TrimSpace(part) != "" {
      var value := TrimSpace(part[i + 1..]);
      TrimSpaceFacts(part[i + 1..]);
      AssignedPrintable(tag, TrimSpace(part[..i]), value);
    }
  }

  lemma AssignedPrintable(tag: Tag, name: string, value: string)
    requires Printable(tag) && Trimmed(value) && ';' !in value
    ensures Assigned(tag, name, value).Ok? ==> Printable(Assigned(tag, name, value).value)
  {
    if Assigned(tag, name, value).Ok? {
      AssignedFields(tag, name, value);
    }
  }

  /** An assignment gives the value to a field, or leaves the texts as they are. */
  lemma AssignedFields(tag: Tag, name: string, value: string)
    requires Assigned(tag, name, value).Ok?
    ensures var next := Assigned(tag, name, value).value;
            && (next.namespace == tag.namespace || next.namespace == value)
            && (next.key == tag.key || next.key == value) && (next.format == tag.format || next.format == value)
  {
  }
}
