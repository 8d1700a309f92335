/** Filename pattern compilation and parsing (src/parser.py).

    A pattern such as "{name}({dob})_{tag}_{date}_{description}" is split into literal
    text and placeholder fields; a placeholder written as "({x})" becomes an optional
    field. The compiled regular expression itself is not modelled: matching a stem
    against it is an oracle that yields the regex's named groups, and `GroupsFit`
    states what the regex guarantees about those groups. */
module Parser {
  import opened Wrappers
  import opened Text
  import opened Types

  const DefaultPattern: string := "{name}({dob})_{tag}_{date}_{description}"

  // ---------------------------------------------------------------------------
  // Placeholders and the groups their regex fragments define
  // ---------------------------------------------------------------------------

  datatype Placeholder = Name | LastName | FirstName | MiddleInitial | Date | Dob | Tag | Description

  function PlaceholderKey(ph: Placeholder): string {
    match ph
    case Name => "name"
    case LastName => "last_name"
    case FirstName => "first_name"
    case MiddleInitial => "middle_initial"
    case Date => "date"
    case Dob => "dob"
    case Tag => "tag"
    case Description => "description"
  }

  /** The placeholder a `{key}` names: the six fixed regex fragments, "tag" and
      "description"; anything else is unknown. */
  function PlaceholderOf(key: string): (r: Option<Placeholder>)
    ensures r.Some? ==> PlaceholderKey(r.value) == key
  {
    if key == "name" then Some(Name)
    else if key == "last_name" then Some(LastName)
    else if key == "first_name" then Some(FirstName)
    else if key == "middle_initial" then Some(MiddleInitial)
    else if key == "date" then Some(Date)
    else if key == "dob" then Some(Dob)
    else if key == "tag" then Some(Tag)
    else if key == "description" then Some(Description)
    else None
  }

  /** Every placeholder is recognised by its own key. */
  lemma {:induction false} PlaceholderOfKey(ph: Placeholder)
    ensures PlaceholderOf(PlaceholderKey(ph)) == Some(ph)
  {
  }

  predicate IsKnown(key: string) {
    PlaceholderOf(key).Some?
  }

  /** A named group of the compiled regex; `optional` when it may not participate. */
  datatype GroupSlot = GroupSlot(group: string, optional: bool)

  /** The named groups of a placeholder's fragment; in "{name}" the middle initial
      sits inside an optional `(?:,\s*...)?`. */
  function PlaceholderGroups(ph: Placeholder): seq<GroupSlot> {
    match ph
    case Name => [GroupSlot("last_name", false), GroupSlot("first_name", false), GroupSlot("middle_initial", true)]
    case _ => [GroupSlot(PlaceholderKey(ph), false)]
  }

  function GroupKeys(ph: Placeholder): seq<string> {
    if ph == Name then ["last_name", "first_name", "middle_initial"] else [PlaceholderKey(ph)]
  }

  /** The group names, left to right, of the fragments for the given placeholder keys. */
  function GroupKeysOfNames(names: seq<string>): seq<string> {
    if names == [] then []
    else
      var front := GroupKeysOfNames(names[..|names| - 1]);
      match PlaceholderOf(names[|names| - 1])
      case Some(ph) => front + GroupKeys(ph)
      case None => front
  }

  // ---------------------------------------------------------------------------
  // Scanning for `{word}` placeholders (re.finditer of \{(\w+)\})
  // ---------------------------------------------------------------------------

  predicate IsWordChar(c: char) {
    ('a' <= c <= 'z') || ('A' <= c <= 'Z') || ('0' <= c <= '9') || c == '_'
  }

  /** The end of the run of word characters starting at j. */
  function WordRunEnd(p: string, j: nat): (k: nat)
    requires j <= |p|
    ensures j <= k <= |p|
    ensures forall i :: j <= i < k ==> IsWordChar(p[i])
    ensures k == |p| || !IsWordChar(p[k])
    decreases |p| - j
  {
    if j < |p| && IsWordChar(p[j]) then WordRunEnd(p, j + 1) else j
  }

  /** `\{(\w+)\}` matches at i: a brace, one or more word characters, a closing brace.
      Greedy `\w+` cannot backtrack into a `}`, so the run must be maximal. */
  predicate MatchAt(p: string, i: nat) {
    i < |p| && p[i] == '{' &&
    var k := WordRunEnd(p, i + 1);
    k > i + 1 && k < |p| && p[k] == '}'
  }

  datatype Match = Match(start: nat, end: nat, name: string)

  /** How a placeholder is written: `{key}`. */
  function Braced(key: string): string {
    "{" + key + "}"
  }

  /** The match lies inside the pattern, opening with "{" and closing with "}". */
  predicate Located(p: string, m: Match) {
    m.start < m.end <= |p| && p[m.start] == '{' && p[m.end - 1] == '}'
  }

  /** The match spells `{word}` for its name. */
  predicate WellPlaced(p: string, m: Match) {
    Located(p, m) && |m.name| >= 1 && m.end - m.start == |m.name| + 2 &&
    SpellsAt(p, m.start, Braced(m.name)) &&
    (forall i :: 0 <= i < |m.name| ==> IsWordChar(m.name[i]))
  }

  /** t occurs in p at `start`, stated character by character. */
  predicate SpellsAt(p: string, start: nat, t: string)
    decreases |t|
  {
    start + |t| <= |p| && (|t| == 0 || (p[start] == t[0] && SpellsAt(p, start + 1, t[1..])))
  }

  lemma {:induction false} SpellsAtSlice(p: string, start: nat, t: string)
    requires start + |t| <= |p|
    ensures SpellsAt(p, start, t) <==> p[start..start + |t|] == t
    decreases |t|
  {
    if |t| > 0 {
      SpellsAtSlice(p, start + 1, t[1..]);
      assert p[start..start + |t|] == [p[start]] + p[start + 1..start + |t|];
      assert t == [t[0]] + t[1..];
    }
  }

  /** The successive non-overlapping matches from position `from`, as finditer yields them. */
  function Scan(p: string, from: nat): seq<Match>
    requires from <= |p|
    decreases |p| - from
  {
    if from == |p| then []
    else if MatchAt(p, from) then
      var k := WordRunEnd(p, from + 1);
      [Match(from, k + 1, p[from + 1..k])] + Scan(p, k + 1)
    else Scan(p, from + 1)
  }

  /** The matches lie in p from `from` on, in order and without overlapping. */
  lemma {:induction false} ScanOrdered(p: string, from: nat)
    requires from <= |p|
    ensures forall i :: 0 <= i < |Scan(p, from)| ==> from <= Scan(p, from)[i].start < Scan(p, from)[i].end <= |p|
    ensures forall i, j :: 0 <= i < j < |Scan(p, from)| ==> Scan(p, from)[i].end <= Scan(p, from)[j].start
    decreases |p| - from
  {
    if from < |p| {
      if MatchAt(p, from) {
        var k := WordRunEnd(p, from + 1);
        var next := k + 1;
        ScanOrdered(p, next);
        var ms, rest := Scan(p, from), Scan(p, next);
        assert from + 1 < k < |p|;
        assert ms == [Match(from, k + 1, p[from + 1..k])] + rest;
        forall i | 0 <= i < |ms| ensures from <= ms[i].start < ms[i].end <= |p| {
          if i > 0 {
            assert ms[i] == rest[i - 1];
            assert next <= rest[i - 1].start;
          } else {
            assert ms[i] == Match(from, k + 1, p[from + 1..k]);
          }
        }
        forall i, j | 0 <= i < j < |ms| ensures ms[i].end <= ms[j].start {
          assert ms[j] == rest[j - 1];
          if i > 0 { assert ms[i] == rest[i - 1]; }
        }
      } else {
        var next := from + 1;
        ScanOrdered(p, next);
        assert Scan(p, from) == Scan(p, next);
      }
    }
  }

  /** Each reported match spans "{", its word, "}". */
  lemma {:induction false} ScanWellPlaced(p: string, from: nat, i: nat)
    requires from <= |p| && i < |Scan(p, from)|
    ensures WellPlaced(p, Scan(p, from)[i])
    decreases |p| - from
  {
    if MatchAt(p, from) {
      var k := WordRunEnd(p, from + 1);
      if i == 0 {
        var m := Scan(p, from)[0];
        assert m == Match(from, k + 1, p[from + 1..k]);
        assert p[from..k + 1] == Braced(m.name);
        assert p[k] == '}';
        SpellsAtSlice(p, from, Braced(m.name));
      } else {
        ScanWellPlaced(p, k + 1, i - 1);
      }
    } else {
      ScanWellPlaced(p, from + 1, i);
    }
  }

  function Names(ms: seq<Match>): (names: seq<string>)
    ensures |names| == |ms| && forall i :: 0 <= i < |ms| ==> names[i] == ms[i].name
  {
    if ms == [] then [] else Names(ms[..|ms| - 1]) + [ms[|ms| - 1].name]
  }

  /** No placeholder occurrence is missed: every position where `{word}` begins is the
      start of a reported match. */
  lemma {:induction false} ScanComplete(p: string, from: nat, q: nat) returns (i: nat)
    requires from <= q <= |p| && MatchAt(p, q)
    ensures i < |Scan(p, from)| && Scan(p, from)[i].start == q
    decreases |p| - from
  {
    if MatchAt(p, from) {
      var k := WordRunEnd(p, from + 1);
      if q == from {
        i := 0;
      } else {
        assert q > k;
        var i' := ScanComplete(p, k + 1, q);
        i := i' + 1;
      }
    } else {
      i := ScanComplete(p, from + 1, q);
    }
  }

  // ---------------------------------------------------------------------------
  // Compiled patterns
  // ---------------------------------------------------------------------------

  /** A field holds the placeholder's key as written between the braces. */
  datatype Segment = Literal(text: string) | Field(key: string) | OptionalField(key: string)

  /** literal pieces (escaped in the regex), fields, and the `tag` alternation order. */
  datatype Pattern = Pattern(segments: seq<Segment>, tagAlternatives: seq<string>)

  datatype CompileError =
    | UnknownPlaceholder(name: string)
    | MissingDescription
      /** re.compile rejects a group name defined twice; it raises re.error, not the
          ValueError of the two cases above */
    | DuplicateGroup(name: string)

  /** The text of the exception. For a duplicate group only the opening of re.error's
      message is given: the rest names the two group numbers and the position, which
      the model does not track. */
  function ErrorMessage(e: CompileError): string {
    match e
    case UnknownPlaceholder(n) => "Unknown placeholder: {" + n + "}"
    case MissingDescription => "Pattern must include {description} placeholder"
    case DuplicateGroup(n) => "redefinition of group name '" + n + "'"
  }

  /** The pattern text a segment stands for. */
  function SegmentText(s: Segment): string {
    match s
    case Literal(t) => t
    case Field(k) => Braced(k)
    case OptionalField(k) => "(" + Braced(k) + ")"
  }

  function Unparse(segs: seq<Segment>): string {
    if segs == [] then "" else Unparse(segs[..|segs| - 1]) + SegmentText(segs[|segs| - 1])
  }

  datatype FieldRef = FieldRef(name: string, optional: bool)

  /** The fields in order, with whether each was made optional. */
  function FieldsOf(segs: seq<Segment>): seq<FieldRef> {
    if segs == [] then []
    else
      var front := FieldsOf(segs[..|segs| - 1]);
      match segs[|segs| - 1]
      case Literal(_) => front
      case Field(k) => front + [FieldRef(k, false)]
      case OptionalField(k) => front + [FieldRef(k, true)]
  }

  /** A placeholder is optional exactly when "(" immediately precedes it and ")"
      immediately follows it in the pattern. */
  predicate Wrapped(p: string, m: Match) {
    0 < m.start <= |p| && p[m.start - 1] == '(' && m.end < |p| && p[m.end] == ')'
  }

  /** One field per placeholder occurrence, optional exactly when wrapped. */
  function ExpectedFields(p: string, ms: seq<Match>): seq<FieldRef> {
    ExpectedUpTo(p, ms, |ms|)
  }

  /** The expected fields of the first n placeholder occurrences. */
  function ExpectedUpTo(p: string, ms: seq<Match>, n: nat): (fs: seq<FieldRef>)
    requires n <= |ms|
    ensures |fs| == n
  {
    if n == 0 then [] else ExpectedUpTo(p, ms, n - 1) + [FieldRef(ms[n - 1].name, Wrapped(p, ms[n - 1]))]
  }

  lemma {:induction false} ExpectedUpToAt(p: string, ms: seq<Match>, n: nat, i: nat)
    requires i < n <= |ms|
    ensures ExpectedUpTo(p, ms, n)[i] == FieldRef(ms[i].name, Wrapped(p, ms[i]))
  {
    if i < n - 1 { ExpectedUpToAt(p, ms, n - 1, i); }
  }

  /** Field i of the expected fields is placeholder occurrence i, optional exactly
      when "(" precedes and ")" follows it. */
  lemma {:induction false} ExpectedFieldsAt(p: string, ms: seq<Match>)
    ensures |ExpectedFields(p, ms)| == |ms|
    ensures forall i :: 0 <= i < |ms| ==> ExpectedFields(p, ms)[i] == FieldRef(ms[i].name, Wrapped(p, ms[i]))
  {
    forall i | 0 <= i < |ms| ensures ExpectedFields(p, ms)[i] == FieldRef(ms[i].name, Wrapped(p, ms[i])) {
      ExpectedUpToAt(p, ms, |ms|, i);
    }
  }

  ghost predicate NonEmptyLiterals(segs: seq<Segment>) {
    forall i :: 0 <= i < |segs| ==> segs[i] != Literal("")
  }

  ghost predicate NoAdjacentLiterals(segs: seq<Segment>) {
    forall i, j :: 0 <= i < j < |segs| && j == i + 1 ==> !(segs[i].Literal? && segs[j].Literal?)
  }

  /** The named groups of the compiled regex, with optionality. */
  function GroupSlots(segs: seq<Segment>): seq<GroupSlot> {
    if segs == [] then []
    else
      var front := GroupSlots(segs[..|segs| - 1]);
      var last := segs[|segs| - 1];
      if last.Literal? then front
      else match PlaceholderOf(last.key)
        case None => front
        case Some(ph) =>
          if last.Field? then front + PlaceholderGroups(ph)
          else front + Optionally(PlaceholderGroups(ph))
  }

  /** The slots of a fragment wrapped in `(?:...)?`: none of them need participate. */
  function Optionally(slots: seq<GroupSlot>): (r: seq<GroupSlot>)
    ensures |r| == |slots|
    ensures forall i :: 0 <= i < |r| ==> r[i] == GroupSlot(slots[i].group, true)
  {
    seq(|slots|, i requires 0 <= i < |slots| => GroupSlot(slots[i].group, true))
  }

  function FirstUnknown(names: seq<string>): (r: Option<string>)
    ensures r.None? <==> forall i :: 0 <= i < |names| ==> IsKnown(names[i])
    ensures r.Some? ==> exists i :: 0 <= i < |names| && names[i] == r.value && !IsKnown(r.value) &&
                                   forall j :: 0 <= j < i ==> IsKnown(names[j])
  {
    if names == [] then None
    else if !IsKnown(names[0]) then Some(names[0])
    else
      var r := FirstUnknown(names[1..]);
      if r.Some? then
        var i :| 0 <= i < |names[1..]| && names[1..][i] == r.value && !IsKnown(r.value) &&
                 forall j :: 0 <= j < i ==> IsKnown(names[1..][j]);
        assert names[i + 1] == r.value;
        r
      else r
  }

  /** The first name, left to right, that repeats an earlier one. */
  function FirstDuplicate(names: seq<string>): (r: Option<string>)
    ensures r.None? <==> forall i, j :: 0 <= i < j < |names| ==> names[i] != names[j]
    ensures r.Some? ==> exists j :: 0 <= j < |names| && names[j] == r.value && r.value in names[..j]
  {
    if names == [] then None
    else
      var front := names[..|names| - 1];
      var r := FirstDuplicate(front);
      if r.Some? then
        var j :| 0 <= j < |front| && front[j] == r.value && r.value in front[..j];
        assert names[..j] == front[..j];
        r
      else if names[|names| - 1] in front then
        assert names[..|names| - 1] == front;
        Some(names[|names| - 1])
      else
        assert forall i, j :: 0 <= i < j < |names| ==> names[i] != names[j] by {
          forall i, j | 0 <= i < j < |names| ensures names[i] != names[j] {
            if j < |names| - 1 { assert names[i] == front[i] && names[j] == front[j]; }
            else { assert names[i] == front[i]; }
          }
        }
        None
  }

  // ---------------------------------------------------------------------------
  // Ordering of the tag alternation: sorted(keys, key=len, reverse=True)
  // ---------------------------------------------------------------------------

  predicate LengthsNonIncreasing(s: seq<string>) {
    forall i, j :: 0 <= i < j < |s| ==> |s[i]| >= |s[j]|
  }

  /** Inserts x behind every element at least as long, in front of every shorter one. */
  function InsertByLength(t: seq<string>, x: string): (r: seq<string>)
    ensures multiset(r) == multiset(t) + multiset{x}
    ensures LengthsNonIncreasing(t) ==> LengthsNonIncreasing(r)
  {
    if t == [] then [x]
    else if |t[0]| < |x| then [x] + t
    else
      var rest := InsertByLength(t[1..], x);
      assert t == [t[0]] + t[1..];
      assert LengthsNonIncreasing(t) ==> LengthsNonIncreasing([t[0]] + rest) by {
        if LengthsNonIncreasing(t) { ConsLongest(t, x, rest); }
      }
      [t[0]] + rest
  }

  /** The head of an ordered list stays in front of the rest with one shorter key added. */
  lemma {:induction false} ConsLongest(t: seq<string>, x: string, rest: seq<string>)
    requires t != [] && LengthsNonIncreasing(t) && |x| <= |t[0]|
    requires multiset(rest) == multiset(t[1..]) + multiset{x} && LengthsNonIncreasing(rest)
    ensures LengthsNonIncreasing([t[0]] + rest)
  {
    assert forall y :: y in multiset(rest) ==> |y| <= |t[0]| by {
      forall y | y in multiset(rest) ensures |y| <= |t[0]| {
        assert y in multiset(t[1..]) || y == x;
        if y in multiset(t[1..]) { var k :| 0 <= k < |t[1..]| && t[1..][k] == y; assert t[k + 1] == y; }
      }
    }
    forall i, j | 0 <= i < j < |[t[0]] + rest| ensures |([t[0]] + rest)[i]| >= |([t[0]] + rest)[j]| {
      if i == 0 { assert rest[j - 1] in multiset(rest); }
    }
  }

  /** Python's stable `sorted(keys, key=len, reverse=True)`. */
  function SortByLengthDesc(keys: seq<string>): (r: seq<string>)
    ensures multiset(r) == multiset(keys)
    ensures LengthsNonIncreasing(r)
  {
    if keys == [] then []
    else
      assert keys == keys[..|keys| - 1] + [keys[|keys| - 1]];
      InsertByLength(SortByLengthDesc(keys[..|keys| - 1]), keys[|keys| - 1])
  }

  /** The keys of one length, in order. */
  function OfLength(s: seq<string>, n: nat): seq<string> {
    if s == [] then [] else (if |s[0]| == n then [s[0]] else []) + OfLength(s[1..], n)
  }

  lemma {:induction false} OfLengthCons(x: string, s: seq<string>, n: nat)
    ensures OfLength([x] + s, n) == (if |x| == n then [x] else []) + OfLength(s, n)
  {
    assert ([x] + s)[1..] == s;
  }

  lemma {:induction false} OfLengthSnoc(s: seq<string>, x: string, n: nat)
    ensures OfLength(s + [x], n) == OfLength(s, n) + (if |x| == n then [x] else [])
  {
    if s == [] {
      assert [] + [x] == [x];
    } else {
      assert (s + [x])[1..] == s[1..] + [x];
      OfLengthSnoc(s[1..], x, n);
    }
  }

  lemma {:induction false} OfLengthShorter(s: seq<string>, n: nat)
    requires forall i :: 0 <= i < |s| ==> |s[i]| < n
    ensures OfLength(s, n) == []
  {
    if s != [] { OfLengthShorter(s[1..], n); }
  }

  lemma {:induction false} ShorterThanFront(t: seq<string>, x: string, n: nat)
    requires LengthsNonIncreasing(t) && t != [] && |t[0]| < |x| && |x| == n
    ensures OfLength([x] + t, n) == OfLength(t, n) + [x]
  {
    OfLengthCons(x, t, n);
    assert forall i :: 0 <= i < |t| ==> |t[i]| < n by {
      forall i | 0 <= i < |t| ensures |t[i]| < n {
        if i > 0 { assert |t[0]| >= |t[i]|; }
      }
    }
    OfLengthShorter(t, n);
  }

  lemma {:induction false} TailNonIncreasing(t: seq<string>)
    requires LengthsNonIncreasing(t) && t != []
    ensures LengthsNonIncreasing(t[1..])
  {
    var rest := t[1..];
    forall i, j | 0 <= i < j < |rest| ensures |rest[i]| >= |rest[j]| {
      assert rest[i] == t[i + 1] && rest[j] == t[j + 1];
    }
  }

  lemma {:induction false} InsertByLengthStable(t: seq<string>, x: string, n: nat)
    requires LengthsNonIncreasing(t)
    ensures OfLength(InsertByLength(t, x), n) == OfLength(t, n) + (if |x| == n then [x] else [])
    decreases |t|, 1
  {
    if t == [] {
      assert OfLength([x], n) == OfLength([], n) + (if |x| == n then [x] else []);
    } else if |t[0]| < |x| {
      assert InsertByLength(t, x) == [x] + t;
      if |x| == n {
        ShorterThanFront(t, x, n);
      } else {
        OfLengthCons(x, t, n);
      }
    } else {
      InsertBehindFront(t, x, n);
    }
  }

  lemma {:induction false} InsertBehindFront(t: seq<string>, x: string, n: nat)
    requires LengthsNonIncreasing(t) && t != [] && |t[0]| >= |x|
    ensures OfLength(InsertByLength(t, x), n) == OfLength(t, n) + (if |x| == n then [x] else [])
    decreases |t|, 0
  {
    var rest := t[1..];
    TailNonIncreasing(t);
    var ins := InsertByLength(rest, x);
    var c := if |t[0]| == n then [t[0]] else [];
    var xs := if |x| == n then [x] else [];
    InsertByLengthStable(rest, x, n);
    OfLengthCons(t[0], ins, n);
    calc {
      OfLength(InsertByLength(t, x), n);
      OfLength([t[0]] + ins, n);
      c + OfLength(ins, n);
      c + (OfLength(rest, n) + xs);
      { ConcatAssoc(c, OfLength(rest, n), xs); }
      (c + OfLength(rest, n)) + xs;
      OfLength(t, n) + xs;
    }
  }

  lemma ConcatAssoc<T>(a: seq<T>, b: seq<T>, c: seq<T>)
    ensures a + (b + c) == (a + b) + c
  {
  }

  /** Sorting by length keeps keys of equal length in their original order. */
  lemma {:induction false} SortByLengthDescStable(keys: seq<string>, n: nat)
    ensures OfLength(SortByLengthDesc(keys), n) == OfLength(keys, n)
  {
    if keys != [] {
      var front, last := keys[..|keys| - 1], keys[|keys| - 1];
      assert keys == front + [last];
      var xs := if |last| == n then [last] else [];
      var sorted := SortByLengthDesc(front);
      calc {
        OfLength(SortByLengthDesc(keys), n);
        OfLength(InsertByLength(sorted, last), n);
        { InsertByLengthStable(sorted, last, n); }
        OfLength(sorted, n) + xs;
        { SortByLengthDescStable(front, n); }
        OfLength(front, n) + xs;
        { OfLengthSnoc(front, last, n); }
        OfLength(keys, n);
      }
    }
  }

  /** A key that extends another key is tried before it. */
  lemma {:induction false} LongerKeyFirst(keys: seq<string>, a: string, b: string)
    requires a in keys && b in keys && |a| > |b|
    ensures exists i, j :: 0 <= i < j < |SortByLengthDesc(keys)| && SortByLengthDesc(keys)[i] == a && SortByLengthDesc(keys)[j] == b
  {
    var r := SortByLengthDesc(keys);
    assert a in multiset(r) && b in multiset(r);
    var i :| 0 <= i < |r| && r[i] == a;
    var j :| 0 <= j < |r| && r[j] == b;
    LongerBefore(r, i, j);
  }

  lemma LongerBefore(r: seq<string>, i: int, j: int)
    requires LengthsNonIncreasing(r) && 0 <= i < |r| && 0 <= j < |r| && |r[i]| > |r[j]|
    ensures i < j
  {
  }

  // ---------------------------------------------------------------------------
  // compile_pattern
  // ---------------------------------------------------------------------------

  /** What the placeholder scan guarantees: each match is a `{word}` of the pattern,
      and the matches come in order without overlapping. */
  predicate Placed(p: string, ms: seq<Match>) {
    PlacedFrom(p, ms, 0)
  }

  predicate PlacedFrom(p: string, ms: seq<Match>, k: nat)
    decreases |ms| - k
  {
    k >= |ms| ||
    (Located(p, ms[k]) && (k + 1 < |ms| ==> ms[k].end <= ms[k + 1].start) && PlacedFrom(p, ms, k + 1))
  }

  lemma {:induction false} PlacedAt(p: string, ms: seq<Match>, i: nat)
    requires Placed(p, ms) && i < |ms|
    ensures Located(p, ms[i])
    ensures i + 1 < |ms| ==> ms[i].end <= ms[i + 1].start
  {
    PlacedFromAt(p, ms, 0, i);
  }

  lemma {:induction false} PlacedFromAt(p: string, ms: seq<Match>, k: nat, i: nat)
    requires PlacedFrom(p, ms, k) && k <= i < |ms|
    ensures Located(p, ms[i])
    ensures i + 1 < |ms| ==> ms[i].end <= ms[i + 1].start
    decreases i - k
  {
    if k < i {
      PlacedFromAt(p, ms, k + 1, i);
    }
  }

  /** Every match from index k on is a `{word}` of the pattern. */
  predicate WellPlacedFrom(p: string, ms: seq<Match>, k: nat)
    decreases |ms| - k
  {
    k >= |ms| || (WellPlaced(p, ms[k]) && WellPlacedFrom(p, ms, k + 1))
  }

  lemma {:induction false} WellPlacedAt(p: string, ms: seq<Match>, k: nat, i: nat)
    requires WellPlacedFrom(p, ms, k) && k <= i < |ms|
    ensures WellPlaced(p, ms[i])
    decreases i - k
  {
    if k < i {
      WellPlacedAt(p, ms, k + 1, i);
    }
  }

  lemma {:induction false} AllWellPlaced(p: string, ms: seq<Match>, k: nat)
    requires forall j :: 0 <= j < |ms| ==> WellPlaced(p, ms[j])
    ensures WellPlacedFrom(p, ms, k)
    decreases |ms| - k
  {
    if k < |ms| { AllWellPlaced(p, ms, k + 1); }
  }

  lemma {:induction false} ScanLocated(p: string)
    ensures Placed(p, Scan(p, 0))
  {
    var ms := Scan(p, 0);
    ScanOrdered(p, 0);
    forall k | 0 <= k < |ms| ensures Located(p, ms[k]) {
      ScanWellPlaced(p, 0, k);
    }
    OrderedPlaced(p, ms, 0);
  }

  lemma {:induction false} OrderedPlaced(p: string, ms: seq<Match>, k: nat)
    requires forall j :: 0 <= j < |ms| ==> Located(p, ms[j])
    requires forall j, l :: 0 <= j < l < |ms| ==> ms[j].end <= ms[l].start
    ensures PlacedFrom(p, ms, k)
    decreases |ms| - k
  {
    if k < |ms| { OrderedPlaced(p, ms, k + 1); }
  }

  lemma {:induction false} ScanPlaced(p: string)
    ensures Placed(p, Scan(p, 0)) && WellPlacedFrom(p, Scan(p, 0), 0)
  {
    ScanLocated(p);
    forall k | 0 <= k < |Scan(p, 0)| ensures WellPlaced(p, Scan(p, 0)[k]) {
      ScanWellPlaced(p, 0, k);
    }
    AllWellPlaced(p, Scan(p, 0), 0);
  }

  /** Where the pattern text resumes after the placeholder: past its ")" when wrapped. */
  function After(p: string, m: Match): nat {
    if Wrapped(p, m) then m.end + 1 else m.end
  }

  lemma {:induction false} AfterFits(p: string, ms: seq<Match>, i: nat)
    requires Placed(p, ms) && i < |ms|
    ensures Located(p, ms[i])
    ensures After(p, ms[i]) <= |p|
    ensures p[After(p, ms[i]) - 1] == '}' || p[After(p, ms[i]) - 1] == ')'
    ensures i + 1 < |ms| ==> After(p, ms[i]) <= ms[i + 1].start
  {
    PlacedAt(p, ms, i);
    if i + 1 < |ms| {
      PlacedAt(p, ms, i + 1);
    }
  }

  /** The segments one placeholder contributes: the literal text since `pos` (without
      the "(" of a wrapped placeholder), when there is any, then the field. */
  function Step(p: string, m: Match, pos: nat): seq<Segment>
    requires pos <= m.start && Located(p, m)
  {
    LiteralSince(p, pos, LitEnd(p, m)) + [FieldOf(p, m)]
  }

  /** Where the literal text before a placeholder ends: before its "(" when wrapped. */
  function LitEnd(p: string, m: Match): nat
    requires Located(p, m)
  {
    if Wrapped(p, m) then m.start - 1 else m.start
  }

  function FieldOf(p: string, m: Match): Segment {
    if Wrapped(p, m) then OptionalField(m.name) else Field(m.name)
  }

  /** The literal segment for p[pos..e], or none when that text is empty. */
  function LiteralSince(p: string, pos: nat, e: nat): seq<Segment>
    requires e <= |p|
  {
    if pos < e then [Literal(p[pos..e])] else []
  }

  /** Where compile_pattern's `pos` stands after the first i placeholders. */
  function Resume(p: string, ms: seq<Match>, i: nat): nat
    requires i <= |ms|
  {
    if i == 0 then 0 else After(p, ms[i - 1])
  }

  lemma {:induction false} ResumeFits(p: string, ms: seq<Match>, i: nat)
    requires Placed(p, ms) && i <= |ms|
    ensures Resume(p, ms, i) <= |p|
    ensures Resume(p, ms, i) == 0 || p[Resume(p, ms, i) - 1] == '}' || p[Resume(p, ms, i) - 1] == ')'
    ensures i < |ms| ==> Located(p, ms[i]) && Resume(p, ms, i) <= ms[i].start
  {
    if i > 0 { AfterFits(p, ms, i - 1); }
    if i < |ms| { PlacedAt(p, ms, i); }
  }

  /** The segments compile_pattern has emitted after the first i placeholders: a
      reference definition of its loop. */
  function Emitted(p: string, ms: seq<Match>, i: nat): seq<Segment>
    requires Placed(p, ms) && i <= |ms|
  {
    if i == 0 then []
    else
      ResumeFits(p, ms, i - 1);
      Emitted(p, ms, i - 1) + Step(p, ms[i - 1], Resume(p, ms, i - 1))
  }

  /** All segments: those for the placeholders, then the text after the last one. */
  function Segments(p: string, ms: seq<Match>): seq<Segment>
    requires Placed(p, ms)
  {
    ResumeFits(p, ms, |ms|);
    Emitted(p, ms, |ms|) + LiteralSince(p, Resume(p, ms, |ms|), |p|)
  }

  lemma {:induction false} UnparseAppend(parts: seq<Segment>, s: Segment)
    ensures Unparse(parts + [s]) == Unparse(parts) + SegmentText(s)
  {
    assert (parts + [s])[..|parts + [s]| - 1] == parts;
  }

  lemma {:induction false} UnparseConcat(a: seq<Segment>, b: seq<Segment>)
    ensures Unparse(a + b) == Unparse(a) + Unparse(b)
  {
    if b != [] {
      var b', s := b[..|b| - 1], b[|b| - 1];
      assert (a + b)[..|a + b| - 1] == a + b';
      UnparseConcat(a, b');
      ConcatAssoc(Unparse(a), Unparse(b'), SegmentText(s));
    } else {
      assert a + b == a;
    }
  }

  lemma {:induction false} FieldsOfConcat(a: seq<Segment>, b: seq<Segment>)
    ensures FieldsOf(a + b) == FieldsOf(a) + FieldsOf(b)
  {
    if b != [] {
      var b', s := b[..|b| - 1], b[|b| - 1];
      assert (a + b)[..|a + b| - 1] == a + b';
      assert (a + b)[|a + b| - 1] == s;
      FieldsOfConcat(a, b');
      var t := match s case Literal(_) => [] case Field(k) => [FieldRef(k, false)] case OptionalField(k) => [FieldRef(k, true)];
      assert FieldsOf(b) == FieldsOf(b') + t;
      ConcatAssoc(FieldsOf(a), FieldsOf(b'), t);
    } else {
      assert a + b == a;
    }
  }

  lemma {:induction false} SpanAround(p: string, a: nat, b: nat)
    requires 0 < a <= b < |p|
    ensures p[a - 1..b + 1] == [p[a - 1]] + p[a..b] + [p[b]]
  {
  }

  /** A step spells out exactly the pattern text it consumes. */
  lemma {:induction false} StepSpells(p: string, m: Match, pos: nat)
    requires pos <= m.start && WellPlaced(p, m)
    requires pos == 0 || p[pos - 1] == '}' || p[pos - 1] == ')'
    ensures After(p, m) <= |p| && Unparse(Step(p, m, pos)) == p[pos..After(p, m)]
  {
    var litEnd := LitEnd(p, m);
    assert pos <= litEnd;
    LiteralSinceSpells(p, pos, litEnd);
    FieldSpells(p, m);
    UnparseAppend(LiteralSince(p, pos, litEnd), FieldOf(p, m));
    SliceSplit(p, pos, litEnd, After(p, m));
  }

  lemma {:induction false} LiteralSinceSpells(p: string, pos: nat, e: nat)
    requires pos <= e <= |p|
    ensures Unparse(LiteralSince(p, pos, e)) == p[pos..e]
  {
    if pos < e { assert LiteralSince(p, pos, e)[..0] == []; }
  }

  lemma {:induction false} FieldSpells(p: string, m: Match)
    requires WellPlaced(p, m)
    ensures LitEnd(p, m) <= After(p, m) <= |p|
    ensures SegmentText(FieldOf(p, m)) == p[LitEnd(p, m)..After(p, m)]
  {
    BracedAt(p, m);
    if Wrapped(p, m) { SpanAround(p, m.start, m.end); }
  }

  lemma {:induction false} BracedAt(p: string, m: Match)
    requires WellPlaced(p, m)
    ensures p[m.start..m.end] == Braced(m.name)
  {
    SpellsAtSlice(p, m.start, Braced(m.name));
  }

  lemma PrefixSplit<T>(s: seq<T>, b: nat, c: nat)
    requires b <= c <= |s|
    ensures s[..c] == s[..b] + s[b..c]
  {
  }

  lemma SliceSplit<T>(s: seq<T>, a: nat, b: nat, c: nat)
    requires a <= b <= c <= |s|
    ensures s[a..c] == s[a..b] + s[b..c]
  {
  }

  /** The segments emitted so far spell out the pattern text consumed so far. */
  lemma {:induction false} EmittedSpells(p: string, ms: seq<Match>, i: nat)
    requires Placed(p, ms) && WellPlacedFrom(p, ms, 0) && i <= |ms|
    ensures Resume(p, ms, i) <= |p| && Unparse(Emitted(p, ms, i)) == p[..Resume(p, ms, i)]
  {
    if i > 0 {
      var j := i - 1;
      EmittedSpells(p, ms, j);
      SpellsStep(p, ms, j, i);
    }
  }

  lemma {:induction false} SpellsStep(p: string, ms: seq<Match>, j: nat, i: nat)
    requires Placed(p, ms) && WellPlacedFrom(p, ms, 0) && i == j + 1 <= |ms|
    requires Resume(p, ms, j) <= |p| && Unparse(Emitted(p, ms, j)) == p[..Resume(p, ms, j)]
    ensures Resume(p, ms, i) <= |p| && Unparse(Emitted(p, ms, i)) == p[..Resume(p, ms, i)]
  {
    EmittedSnoc(p, ms, j, i);
    StepSpellsAt(p, ms, j);
    SpellsSnoc(p, Emitted(p, ms, j), Step(p, ms[j], Resume(p, ms, j)), Resume(p, ms, j), After(p, ms[j]));
  }

  /** One more turn of the loop appends one step and moves past one placeholder
      (stated for i == j + 1 so that callers hand over plain variables). */
  lemma {:induction false} EmittedSnoc(p: string, ms: seq<Match>, j: nat, i: nat)
    requires Placed(p, ms) && i == j + 1 <= |ms|
    ensures Located(p, ms[j]) && Resume(p, ms, j) <= ms[j].start
    ensures Emitted(p, ms, i) == Emitted(p, ms, j) + Step(p, ms[j], Resume(p, ms, j))
    ensures Resume(p, ms, i) == After(p, ms[j])
  {
    ResumeFits(p, ms, j);
  }

  lemma {:induction false} StepSpellsAt(p: string, ms: seq<Match>, j: nat)
    requires Placed(p, ms) && WellPlacedFrom(p, ms, 0) && j < |ms|
    ensures Located(p, ms[j]) && Resume(p, ms, j) <= ms[j].start && After(p, ms[j]) <= |p|
    ensures Unparse(Step(p, ms[j], Resume(p, ms, j))) == p[Resume(p, ms, j)..After(p, ms[j])]
  {
    ResumeFits(p, ms, j);
    WellPlacedAt(p, ms, 0, j);
    StepSpells(p, ms[j], Resume(p, ms, j));
  }

  lemma {:induction false} SpellsSnoc(p: string, front: seq<Segment>, step: seq<Segment>, r: nat, e: nat)
    requires r <= e <= |p| && Unparse(front) == p[..r] && Unparse(step) == p[r..e]
    ensures Unparse(front + step) == p[..e]
  {
    UnparseConcat(front, step);
    PrefixSplit(p, r, e);
  }

  /** One field per placeholder occurrence so far, optional exactly when wrapped. */
  lemma {:induction false} EmittedFields(p: string, ms: seq<Match>, i: nat)
    requires Placed(p, ms) && i <= |ms|
    ensures FieldsOf(Emitted(p, ms, i)) == ExpectedUpTo(p, ms, i)
  {
    if i > 0 {
      var j := i - 1;
      EmittedFields(p, ms, j);
      FieldsStep(p, ms, j, i);
    }
  }

  lemma {:induction false} FieldsStep(p: string, ms: seq<Match>, j: nat, i: nat)
    requires Placed(p, ms) && i == j + 1 <= |ms|
    requires FieldsOf(Emitted(p, ms, j)) == ExpectedUpTo(p, ms, j)
    ensures FieldsOf(Emitted(p, ms, i)) == ExpectedUpTo(p, ms, i)
  {
    EmittedSnoc(p, ms, j, i);
    ExpectedUpToSnoc(p, ms, j, i);
    var m, r := ms[j], Resume(p, ms, j);
    var step := Step(p, m, r);
    FieldsOfConcat(Emitted(p, ms, j), step);
    StepFields(p, m, r);
  }

  lemma {:induction false} ExpectedUpToSnoc(p: string, ms: seq<Match>, j: nat, i: nat)
    requires i == j + 1 <= |ms|
    ensures ExpectedUpTo(p, ms, i) == ExpectedUpTo(p, ms, j) + [FieldRef(ms[j].name, Wrapped(p, ms[j]))]
  {
  }

  lemma {:induction false} StepFields(p: string, m: Match, pos: nat)
    requires pos <= m.start && Located(p, m)
    ensures FieldsOf(Step(p, m, pos)) == [FieldRef(m.name, Wrapped(p, m))]
  {
    var step := Step(p, m, pos);
    var front := LiteralSince(p, pos, LitEnd(p, m));
    assert step[..|step| - 1] == front;
    assert FieldsOf(front) == [] by {
      if front != [] { assert front[..0] == []; }
    }
  }

  /** Literal segments emitted are never empty and never adjacent, and the last
      segment emitted is a field. */
  lemma {:induction false} EmittedLiterals(p: string, ms: seq<Match>, i: nat)
    requires Placed(p, ms) && i <= |ms|
    ensures NonEmptyLiterals(Emitted(p, ms, i)) && NoAdjacentLiterals(Emitted(p, ms, i))
    ensures i > 0 ==> !Emitted(p, ms, i)[|Emitted(p, ms, i)| - 1].Literal?
  {
    if i > 0 {
      var j := i - 1;
      EmittedLiterals(p, ms, j);
      EmittedSnoc(p, ms, j, i);
      LiteralsAppend(Emitted(p, ms, j), Step(p, ms[j], Resume(p, ms, j)));
    }
  }

  /** Appending a step (an optional non-empty literal, then a field) behind a field
      keeps literals non-empty and apart. */
  lemma {:induction false} LiteralsAppend(front: seq<Segment>, step: seq<Segment>)
    requires NonEmptyLiterals(front) && NoAdjacentLiterals(front)
    requires front == [] || !front[|front| - 1].Literal?
    requires 1 <= |step| <= 2 && !step[|step| - 1].Literal? && step[0] != Literal("")
    ensures NonEmptyLiterals(front + step) && NoAdjacentLiterals(front + step)
  {
    var all := front + step;
    forall k | 0 <= k < |all| ensures all[k] != Literal("") {
      if k < |front| { assert all[k] == front[k]; }
    }
    forall k, l | 0 <= k < l < |all| && l == k + 1 ensures !(all[k].Literal? && all[l].Literal?) {
      if l < |front| { assert all[k] == front[k] && all[l] == front[l]; }
    }
  }

  /** A compiled pattern spells the pattern, has one field per placeholder occurrence,
      and keeps its literals non-empty and apart. */
  lemma {:induction false} SegmentsShape(p: string)
    ensures Placed(p, Scan(p, 0))
    ensures Unparse(Segments(p, Scan(p, 0))) == p
    ensures FieldsOf(Segments(p, Scan(p, 0))) == ExpectedFields(p, Scan(p, 0))
    ensures NonEmptyLiterals(Segments(p, Scan(p, 0))) && NoAdjacentLiterals(Segments(p, Scan(p, 0)))
  {
    var ms := Scan(p, 0);
    ScanPlaced(p);
    SegmentsSpell(p, ms);
    SegmentsFields(p, ms);
    SegmentsLiterals(p, ms);
  }

  /** The segments for the placeholders and the trailing text. */
  lemma {:induction false} SegmentsSplit(p: string, ms: seq<Match>)
    requires Placed(p, ms)
    ensures Resume(p, ms, |ms|) <= |p|
    ensures Segments(p, ms) == Emitted(p, ms, |ms|) + LiteralSince(p, Resume(p, ms, |ms|), |p|)
  {
    ResumeFits(p, ms, |ms|);
  }

  lemma {:induction false} SegmentsSpell(p: string, ms: seq<Match>)
    requires Placed(p, ms) && WellPlacedFrom(p, ms, 0)
    ensures Unparse(Segments(p, ms)) == p
  {
    SegmentsSplit(p, ms);
    EmittedSpells(p, ms, |ms|);
    var r := Resume(p, ms, |ms|);
    LiteralSinceSpells(p, r, |p|);
    SpellsSnoc(p, Emitted(p, ms, |ms|), LiteralSince(p, r, |p|), r, |p|);
    assert p[..|p|] == p;
  }

  lemma {:induction false} SegmentsFields(p: string, ms: seq<Match>)
    requires Placed(p, ms)
    ensures FieldsOf(Segments(p, ms)) == ExpectedFields(p, ms)
  {
    SegmentsSplit(p, ms);
    EmittedFields(p, ms, |ms|);
    var tail := LiteralSince(p, Resume(p, ms, |ms|), |p|);
    FieldsOfConcat(Emitted(p, ms, |ms|), tail);
    assert FieldsOf(tail) == [] by {
      if tail != [] { assert tail[..0] == []; }
    }
    assert FieldsOf(Emitted(p, ms, |ms|)) + [] == FieldsOf(Emitted(p, ms, |ms|));
  }

  lemma {:induction false} SegmentsLiterals(p: string, ms: seq<Match>)
    requires Placed(p, ms)
    ensures NonEmptyLiterals(Segments(p, ms)) && NoAdjacentLiterals(Segments(p, ms))
  {
    SegmentsSplit(p, ms);
    EmittedLiterals(p, ms, |ms|);
    TailAppend(Emitted(p, ms, |ms|), LiteralSince(p, Resume(p, ms, |ms|), |p|));
  }

  /** Appending at most one non-empty literal behind a field keeps literals non-empty
      and apart. */
  lemma {:induction false} TailAppend(front: seq<Segment>, tail: seq<Segment>)
    requires NonEmptyLiterals(front) && NoAdjacentLiterals(front)
    requires front == [] || !front[|front| - 1].Literal?
    requires tail == [] || (|tail| == 1 && tail[0] != Literal(""))
    ensures NonEmptyLiterals(front + tail) && NoAdjacentLiterals(front + tail)
  {
    var all := front + tail;
    if tail == [] {
      assert all == front;
    } else {
      forall k | 0 <= k < |all| ensures all[k] != Literal("") {
        if k < |front| { assert all[k] == front[k]; }
      }
      forall k, l | 0 <= k < l < |all| && l == k + 1 ensures !(all[k].Literal? && all[l].Literal?) {
        if l < |front| { assert all[k] == front[k] && all[l] == front[l]; }
      }
    }
  }

  /** One turn of the compile_pattern loop: the literal text since `pos`, less the "("
      of a placeholder wrapped in parentheses, then the placeholder's field. */
  method EmitPlaceholder(pattern: string, pos: nat, m: Match) returns (step: seq<Segment>, next: nat)
    requires Located(pattern, m) && pos <= m.start
    requires pos == 0 || pattern[pos - 1] == '}' || pattern[pos - 1] == ')'
    ensures step == Step(pattern, m, pos) && next == After(pattern, m)
  {
    var literalBefore := pattern[pos..m.start];
    var wrappedInParens := |literalBefore| > 0 && literalBefore[|literalBefore| - 1] == '('
                           && m.end < |pattern| && pattern[m.end] == ')';
    assert wrappedInParens == Wrapped(pattern, m) by {
      if pos == m.start && m.start > 0 { assert pattern[pos - 1] != '('; }
      if |literalBefore| > 0 { assert literalBefore[|literalBefore| - 1] == pattern[m.start - 1]; }
    }
    if wrappedInParens {
      var literalWithoutParen := literalBefore[..|literalBefore| - 1];
      assert literalWithoutParen == pattern[pos..m.start - 1];
      step := if |literalWithoutParen| > 0 then [Literal(literalWithoutParen)] else [];
      step := step + [OptionalField(m.name)];
      next := m.end + 1;
      assert step == LiteralSince(pattern, pos, m.start - 1) + [OptionalField(m.name)];
    } else {
      step := if |literalBefore| > 0 then [Literal(literalBefore)] else [];
      step := step + [Field(m.name)];
      next := m.end;
      assert step == LiteralSince(pattern, pos, m.start) + [Field(m.name)];
    }
  }

  /** What compile_pattern yields: unknown placeholders, then a missing {description},
      then a group name defined twice are rejected, in that order of precedence;
      otherwise the segments of the reference definition and the tag keys longest first. */
  function Compiled(pattern: string, tagKeys: seq<string>): Result<Pattern, CompileError> {
    match FirstUnknown(PatternNames(pattern))
    case Some(n) => Failure(UnknownPlaceholder(n))
    case None =>
      if "description" !in PatternNames(pattern) then Failure(MissingDescription)
      else match FirstDuplicate(PatternGroups(pattern))
        case Some(g) => Failure(DuplicateGroup(g))
        case None =>
          ScanLocated(pattern);
          Success(Pattern(Segments(pattern, Scan(pattern, 0)), SortByLengthDesc(tagKeys)))
  }

  /** The placeholder keys of a pattern, left to right. */
  function PatternNames(pattern: string): seq<string> {
    Names(Scan(pattern, 0))
  }

  /** The regex group names a pattern's fragments define, left to right. */
  function PatternGroups(pattern: string): seq<string> {
    GroupKeysOfNames(PatternNames(pattern))
  }

  /** compile_pattern rejects a pattern with an unknown placeholder exactly when it has
      one, and then names the first. */
  lemma {:induction false} CompiledUnknown(pattern: string, tagKeys: seq<string>)
    ensures (Compiled(pattern, tagKeys).Failure? && Compiled(pattern, tagKeys).error.UnknownPlaceholder?)
      <==> exists i :: 0 <= i < |PatternNames(pattern)| && !IsKnown(PatternNames(pattern)[i])
    ensures Compiled(pattern, tagKeys).Failure? && Compiled(pattern, tagKeys).error.UnknownPlaceholder? ==>
      exists i :: 0 <= i < |PatternNames(pattern)| && PatternNames(pattern)[i] == Compiled(pattern, tagKeys).error.name &&
        !IsKnown(PatternNames(pattern)[i]) && forall j :: 0 <= j < i ==> IsKnown(PatternNames(pattern)[j])
  {
    var u := FirstUnknown(PatternNames(pattern));
    if u.Some? {
      assert Compiled(pattern, tagKeys) == Failure(UnknownPlaceholder(u.value));
    }
  }

  /** With every placeholder known, compile_pattern rejects the pattern exactly when
      it lacks {description}. */
  lemma {:induction false} CompiledMissingDescription(pattern: string, tagKeys: seq<string>)
    ensures Compiled(pattern, tagKeys) == Failure(MissingDescription)
      <==> (forall i :: 0 <= i < |PatternNames(pattern)| ==> IsKnown(PatternNames(pattern)[i])) &&
           "description" !in PatternNames(pattern)
  {
  }

  /** With every placeholder known and {description} present, the pattern is rejected
      exactly when two of its fragments define the same group, and the error names the
      first group defined twice. */
  lemma {:induction false} CompiledDuplicate(pattern: string, tagKeys: seq<string>)
    ensures (Compiled(pattern, tagKeys).Failure? && Compiled(pattern, tagKeys).error.DuplicateGroup?)
      <==> (forall i :: 0 <= i < |PatternNames(pattern)| ==> IsKnown(PatternNames(pattern)[i])) &&
           "description" in PatternNames(pattern) &&
           exists i, j :: 0 <= i < j < |PatternGroups(pattern)| && PatternGroups(pattern)[i] == PatternGroups(pattern)[j]
    ensures Compiled(pattern, tagKeys).Failure? && Compiled(pattern, tagKeys).error.DuplicateGroup? ==>
      exists j :: 0 <= j < |PatternGroups(pattern)| && PatternGroups(pattern)[j] == Compiled(pattern, tagKeys).error.name &&
        PatternGroups(pattern)[j] in PatternGroups(pattern)[..j]
  {
    var d := FirstDuplicate(PatternGroups(pattern));
    if FirstUnknown(PatternNames(pattern)).None? && "description" in PatternNames(pattern) && d.Some? {
      assert Compiled(pattern, tagKeys) == Failure(DuplicateGroup(d.value));
    }
  }

  /** compile_pattern succeeds exactly when no rejection applies; the compiled pattern
      spells the pattern back out, has one field per placeholder occurrence in order,
      optional exactly where wrapped in parentheses, keeps its literals non-empty and
      apart, and tries the tag keys longest first. */
  lemma {:induction false} CompiledSuccess(pattern: string, tagKeys: seq<string>)
    ensures Compiled(pattern, tagKeys).Success? <==>
      (forall i :: 0 <= i < |PatternNames(pattern)| ==> IsKnown(PatternNames(pattern)[i])) &&
      "description" in PatternNames(pattern) &&
      (forall i, j :: 0 <= i < j < |PatternGroups(pattern)| ==> PatternGroups(pattern)[i] != PatternGroups(pattern)[j])
    ensures Compiled(pattern, tagKeys).Success? ==>
      Unparse(Compiled(pattern, tagKeys).value.segments) == pattern &&
      FieldsOf(Compiled(pattern, tagKeys).value.segments) == ExpectedFields(pattern, Scan(pattern, 0)) &&
      NonEmptyLiterals(Compiled(pattern, tagKeys).value.segments) &&
      NoAdjacentLiterals(Compiled(pattern, tagKeys).value.segments) &&
      Compiled(pattern, tagKeys).value.tagAlternatives == SortByLengthDesc(tagKeys) &&
      LengthsNonIncreasing(Compiled(pattern, tagKeys).value.tagAlternatives)
  {
    SegmentsShape(pattern);
  }

  /** compile_pattern, walking the placeholder occurrences left to right. */
  method CompilePattern(pattern: string, tagKeys: seq<string>) returns (r: Result<Pattern, CompileError>)
    ensures r == Compiled(pattern, tagKeys)
  {
    var ms := Scan(pattern, 0);
    ScanLocated(pattern);
    var parts, foundDescription := EmitSegments(pattern, ms);
    if parts.Failure? {
      return Failure(UnknownPlaceholder(parts.error));
    }
    if !foundDescription {
      return Failure(MissingDescription);
    }
    var dup := FirstDuplicate(GroupKeysOfNames(Names(ms)));
    if dup.Some? {
      return Failure(DuplicateGroup(dup.value));
    }
    r := Success(Pattern(parts.value, SortByLengthDesc(tagKeys)));
  }

  /** The loop of compile_pattern and the trailing literal after it: the segments of the
      reference definition, or the first placeholder that is not known. */
  method EmitSegments(pattern: string, ms: seq<Match>) returns (r: Result<seq<Segment>, string>, foundDescription: bool)
    requires Placed(pattern, ms)
    ensures FirstUnknown(Names(ms)).Some? ==> r == Failure(FirstUnknown(Names(ms)).value)
    ensures FirstUnknown(Names(ms)).None? ==>
      r == Success(Segments(pattern, ms)) && (foundDescription <==> "description" in Names(ms))
  {
    var parts: seq<Segment> := [];
    var pos: nat := 0;
    foundDescription := false;
    var i := 0;
    while i < |ms|
      invariant 0 <= i <= |ms|
      invariant pos == Resume(pattern, ms, i) && parts == Emitted(pattern, ms, i)
      invariant KnownBefore(ms, i)
      invariant foundDescription == DescriptionBefore(ms, i)
    {
      var m := ms[i];
      ResumeFits(pattern, ms, i);
      var step, next := EmitPlaceholder(pattern, pos, m);
      if PlaceholderOf(m.name).None? {
        UnknownIsFirst(ms, i);
        return Failure(m.name), foundDescription;
      }
      var i' := i + 1;
      EmitLoopStep(pattern, ms, i, i');
      parts, pos := parts + step, next;
      if m.name == "description" {
        foundDescription := true;
      }
      i := i';
    }
    SegmentsOfEmitted(pattern, ms, i);
    AllKnown(ms, i);
    parts := EmitTail(pattern, parts, pos);
    r := Success(parts);
  }

  /** One turn of the loop keeps its invariants: the emitted segments grow by the
      step for the next known placeholder, and the names seen by its name. */
  lemma {:induction false} EmitLoopStep(p: string, ms: seq<Match>, i: nat, i': nat)
    requires Placed(p, ms) && i' == i + 1 <= |ms|
    requires IsKnown(ms[i].name) && KnownBefore(ms, i)
    ensures Located(p, ms[i]) && Resume(p, ms, i) <= ms[i].start
    ensures Emitted(p, ms, i') == Emitted(p, ms, i) + Step(p, ms[i], Resume(p, ms, i))
    ensures Resume(p, ms, i') == After(p, ms[i])
    ensures KnownBefore(ms, i')
    ensures DescriptionBefore(ms, i') == (DescriptionBefore(ms, i) || ms[i].name == "description")
  {
    EmittedSnoc(p, ms, i, i');
  }

  /** The first i placeholder names are all known. */
  predicate KnownBefore(ms: seq<Match>, i: nat)
    requires i <= |ms|
  {
    i == 0 || (KnownBefore(ms, i - 1) && IsKnown(ms[i - 1].name))
  }

  /** {description} is among the first i placeholder names. */
  predicate DescriptionBefore(ms: seq<Match>, i: nat)
    requires i <= |ms|
  {
    i > 0 && (DescriptionBefore(ms, i - 1) || ms[i - 1].name == "description")
  }

  lemma {:induction false} KnownBeforeAt(ms: seq<Match>, i: nat, j: nat)
    requires j < i <= |ms| && KnownBefore(ms, i)
    ensures IsKnown(ms[j].name)
    decreases i
  {
    if j < i - 1 {
      KnownBeforeAt(ms, i - 1, j);
    }
  }

  lemma {:induction false} DescriptionBeforeIn(ms: seq<Match>, i: nat)
    requires i <= |ms|
    ensures DescriptionBefore(ms, i) <==> "description" in Names(ms)[..i]
    decreases i
  {
    if i > 0 {
      DescriptionBeforeIn(ms, i - 1);
      assert Names(ms)[..i] == Names(ms)[..i - 1] + [ms[i - 1].name];
    }
  }

  /** At the end of the loop every name was known, and the description was seen
      exactly when it is among the names. */
  lemma {:induction false} AllKnown(ms: seq<Match>, i: nat)
    requires i == |ms| && KnownBefore(ms, i)
    ensures FirstUnknown(Names(ms)).None?
    ensures DescriptionBefore(ms, i) <==> "description" in Names(ms)
  {
    forall j | 0 <= j < |ms|
      ensures IsKnown(Names(ms)[j])
    {
      KnownBeforeAt(ms, i, j);
    }
    DescriptionBeforeIn(ms, i);
    assert Names(ms)[..i] == Names(ms);
  }

  /** The text after the last placeholder, when there is any, becomes a last literal. */
  method EmitTail(pattern: string, parts: seq<Segment>, pos: nat) returns (all: seq<Segment>)
    requires pos <= |pattern|
    ensures all == parts + LiteralSince(pattern, pos, |pattern|)
  {
    all := parts;
    if pos < |pattern| {
      assert pattern[pos..] == pattern[pos..|pattern|];
      all := all + [Literal(pattern[pos..])];
    } else {
      assert all + [] == all;
    }
  }

  /** After the last placeholder, the segments are those emitted plus the trailing text. */
  lemma {:induction false} SegmentsOfEmitted(p: string, ms: seq<Match>, i: nat)
    requires Placed(p, ms) && 0 <= i <= |ms| && !(i < |ms|)
    ensures i == |ms| && Resume(p, ms, i) <= |p| && ms[..i] == ms
    ensures Segments(p, ms) == Emitted(p, ms, i) + LiteralSince(p, Resume(p, ms, i), |p|)
  {
    SegmentsSplit(p, ms);
  }

  lemma {:induction false} UnknownIsFirst(ms: seq<Match>, i: nat)
    requires i < |ms| && !IsKnown(ms[i].name) && KnownBefore(ms, i)
    ensures FirstUnknown(Names(ms)) == Some(ms[i].name)
  {
    var names := Names(ms);
    forall j | 0 <= j < i
      ensures IsKnown(names[j])
    {
      KnownBeforeAt(ms, i, j);
    }
    var r := FirstUnknown(names);
    assert !IsKnown(names[i]);
    var k :| 0 <= k < |names| && names[k] == r.value && !IsKnown(r.value) && forall j :: 0 <= j < k ==> IsKnown(names[j]);
    assert k == i;
  }

  // ---------------------------------------------------------------------------
  // MMDDYY dates (parse_date_mmddyy) and ISO formatting (date.isoformat)
  // ---------------------------------------------------------------------------

  datatype CalendarDate = CalendarDate(year: int, month: int, day: int)

  predicate IsLeapYear(y: int) {
    y % 4 == 0 && (y % 100 != 0 || y % 400 == 0)
  }

  function DaysInMonth(y: int, m: int): (n: int)
    requires 1 <= m <= 12
    ensures 28 <= n <= 31
    ensures n == 29 <==> m == 2 && IsLeapYear(y)
  {
    if m == 2 then (if IsLeapYear(y) then 29 else 28)
    else if m == 4 || m == 6 || m == 9 || m == 11 then 30
    else 31
  }

  /** The triples datetime.date accepts: years 1 to 9999, months 1 to 12, and a day
      within the month. */
  predicate IsValidDate(d: CalendarDate) {
    1 <= d.year <= 9999 && 1 <= d.month <= 12 && 1 <= d.day <= DaysInMonth(d.year, d.month)
  }

  /** The years a two-digit MMDDYY year can stand for. */
  predicate InPivotRange(d: CalendarDate) {
    1951 <= d.year <= 2050
  }

  /** The two-digit year pivot: 00 to 50 are 2000 to 2050, 51 to 99 are 1951 to 1999. */
  function PivotYear(yy: nat): (y: int)
    requires yy < 100
    ensures 1951 <= y <= 2050
    ensures y % 100 == yy
  {
    if yy <= 50 then 2000 + yy else 1900 + yy
  }

  /** `int` of a two-character digit string. */
  function TwoDigitValue(a: char, b: char): (v: nat)
    requires IsDigit(a) && IsDigit(b)
    ensures v < 100
  {
    DigitValue(a) * 10 + DigitValue(b)
  }

  /** parse_date_mmddyy: exactly six digits, read as month, day and pivoted year, and a
      date only when the calendar has that day. */
  function ParseDateMmddyy(s: string): (r: Option<CalendarDate>)
    ensures r.Some? ==> |s| == 6 && AllDigits(s)
    ensures r.Some? ==> IsValidDate(r.value) && InPivotRange(r.value)
  {
    if |s| != 6 || !AllDigits(s) then None
    else
      var d := CalendarDate(PivotYear(TwoDigitValue(s[4], s[5])), TwoDigitValue(s[0], s[1]), TwoDigitValue(s[2], s[3]));
      if IsValidDate(d) then Some(d) else None
  }

  /** Two digits for a number below 100. */
  function TwoDigits(n: nat): (s: string)
    requires n < 100
    ensures |s| == 2 && AllDigits(s) && TwoDigitValue(s[0], s[1]) == n
  {
    [DigitChar(n / 10), DigitChar(n % 10)]
  }

  /** The MMDDYY spelling of a date in the pivot range. */
  function FormatMmddyy(d: CalendarDate): (s: string)
    requires IsValidDate(d) && InPivotRange(d)
    ensures |s| == 6 && AllDigits(s)
  {
    TwoDigits(d.month) + TwoDigits(d.day) + TwoDigits(d.year % 100)
  }

  /** Pivoting the last two digits of a year in the range gives the year back. */
  lemma {:induction false} PivotYearOfRange(y: int)
    requires 1951 <= y <= 2050
    ensures PivotYear(y % 100) == y
  {
  }

  /** A valid date in the pivot range decodes from its MMDDYY spelling. */
  lemma {:induction false} MmddyyRoundTrip(d: CalendarDate)
    requires IsValidDate(d) && InPivotRange(d)
    ensures ParseDateMmddyy(FormatMmddyy(d)) == Some(d)
  {
    var s := FormatMmddyy(d);
    var m, dd, yy := TwoDigits(d.month), TwoDigits(d.day), TwoDigits(d.year % 100);
    assert s[0] == m[0] && s[1] == m[1] && s[2] == dd[0] && s[3] == dd[1] && s[4] == yy[0] && s[5] == yy[1];
    PivotYearOfRange(d.year);
  }

  /** A decoded string is the MMDDYY spelling of its date: the decoder loses nothing,
      so two strings that decode to the same date are the same string. */
  lemma {:induction false} MmddyyDecodedSpelling(s: string)
    requires ParseDateMmddyy(s).Some?
    ensures FormatMmddyy(ParseDateMmddyy(s).value) == s
  {
    var d := ParseDateMmddyy(s).value;
    var t := FormatMmddyy(d);
    assert d.year % 100 == TwoDigitValue(s[4], s[5]);
    TwoDigitsEqual(t[0], t[1], s[0], s[1]);
    TwoDigitsEqual(t[2], t[3], s[2], s[3]);
    TwoDigitsEqual(t[4], t[5], s[4], s[5]);
    assert t == s;
  }

  lemma {:induction false} TwoDigitsEqual(a: char, b: char, c: char, e: char)
    requires IsDigit(a) && IsDigit(b) && IsDigit(c) && IsDigit(e)
    requires TwoDigitValue(a, b) == TwoDigitValue(c, e)
    ensures a == c && b == e
  {
  }

  /** ParseDateMmddyy decodes s to d exactly when s spells a valid pivot-range date d. */
  lemma {:induction false} MmddyyDecodes(s: string, d: CalendarDate)
    ensures ParseDateMmddyy(s) == Some(d) <==> IsValidDate(d) && InPivotRange(d) && s == FormatMmddyy(d)
  {
    if ParseDateMmddyy(s) == Some(d) {
      MmddyyDecodedSpelling(s);
    }
    if IsValidDate(d) && InPivotRange(d) && s == FormatMmddyy(d) {
      MmddyyRoundTrip(d);
    }
  }

  /** The decoder's behaviour on the dates the parser's tests use. */
  lemma {:induction false} MmddyyExamples()
    ensures ParseDateMmddyy("010150") == Some(CalendarDate(2050, 1, 1))
    ensures ParseDateMmddyy("010151") == Some(CalendarDate(1951, 1, 1))
    ensures ParseDateMmddyy("020326") == Some(CalendarDate(2026, 2, 3))
    ensures ParseDateMmddyy("999999") == None
    ensures ParseDateMmddyy("023026") == None
    ensures ParseDateMmddyy("02032") == None
    ensures ParseDateMmddyy("0203x6") == None
  {
    assert !AllDigits("0203x6") by { assert !IsDigit("0203x6"[4]); }
  }

  /** date.isoformat(): "YYYY-MM-DD" with zero-padded fields. */
  function IsoFormat(d: CalendarDate): (s: string)
    requires IsValidDate(d)
    ensures |s| == 10 && s[4] == '-' && s[7] == '-'
  {
    NatDigitsFit(d.year, 4);
    NatDigitsFit(d.month, 2);
    NatDigitsFit(d.day, 2);
    ZeroPad(d.year, 4) + "-" + ZeroPad(d.month, 2) + "-" + ZeroPad(d.day, 2)
  }

  /** The ISO text holds the year, month and day as decimal digits in fixed places. */
  lemma {:induction false} IsoFormatFields(d: CalendarDate)
    requires IsValidDate(d)
    ensures AllDigits(IsoFormat(d)[..4]) && DigitsValue(IsoFormat(d)[..4]) == d.year
    ensures AllDigits(IsoFormat(d)[5..7]) && DigitsValue(IsoFormat(d)[5..7]) == d.month
    ensures AllDigits(IsoFormat(d)[8..]) && DigitsValue(IsoFormat(d)[8..]) == d.day
  {
    NatDigitsFit(d.year, 4);
    NatDigitsFit(d.month, 2);
    NatDigitsFit(d.day, 2);
    var s := IsoFormat(d);
    assert s[..4] == ZeroPad(d.year, 4);
    assert s[5..7] == ZeroPad(d.month, 2);
    assert s[8..] == ZeroPad(d.day, 2);
  }

  /** Different dates have different ISO texts. */
  lemma {:induction false} IsoFormatInjective(a: CalendarDate, b: CalendarDate)
    requires IsValidDate(a) && IsValidDate(b)
    ensures IsoFormat(a) == IsoFormat(b) <==> a == b
  {
    IsoFormatFields(a);
    IsoFormatFields(b);
  }

  // ---------------------------------------------------------------------------
  // The file name's stem (Path(filename).stem)
  // ---------------------------------------------------------------------------

  /** `str.rfind(c)`: the index of the last c, or -1. */
  function RFind(s: string, c: char): (i: int)
    ensures -1 <= i < |s|
    ensures i >= 0 ==> s[i] == c && c !in s[i + 1..]
    ensures i == -1 <==> c !in s
  {
    if s == [] then -1
    else if s[|s| - 1] == c then |s| - 1
    else
      var i := RFind(s[..|s| - 1], c);
      assert s == s[..|s| - 1] + [s[|s| - 1]];
      if i >= 0 then
        assert s[i + 1..] == s[..|s| - 1][i + 1..] + [s[|s| - 1]];
        i
      else i
  }

  /** Path(name).stem of a bare file name: the name without its last ".suffix", where a
      dot that opens or ends the name does not start a suffix. */
  function Stem(name: string): string {
    var i := RFind(name, '.');
    if 0 < i < |name| - 1 then name[..i] else name
  }

  /** The stem drops exactly one extension: the part after the last dot. */
  lemma {:induction false} StemDropsExtension(base: string, ext: string)
    requires base != "" && ext != "" && '.' !in ext
    ensures Stem(base + "." + ext) == base
  {
    var name := base + "." + ext;
    assert name[|base|] == '.' && name[|base| + 1..] == ext;
    RFindAt(name, '.', |base|);
    assert name[..|base|] == base;
  }

  /** A c with no c after it is the one rfind finds. */
  lemma {:induction false} RFindAt(s: string, c: char, k: nat)
    requires k < |s| && s[k] == c && c !in s[k + 1..]
    ensures RFind(s, c) == k
  {
    if k < |s| - 1 {
      assert s[k + 1..][|s| - k - 2] == s[|s| - 1];
      var s' := s[..|s| - 1];
      assert s'[k + 1..] == s[k + 1..][..|s| - k - 2];
      RFindAt(s', c, k);
    }
  }

  /** A name without an extension is its own stem: no dot, a leading dot only, or a
      trailing dot. */
  lemma {:induction false} StemKeepsName(name: string)
    requires '.' !in name || RFind(name, '.') == 0 || (name != "" && name[|name| - 1] == '.')
    ensures Stem(name) == name
  {
    if name != "" && name[|name| - 1] == '.' {
      assert RFind(name, '.') == |name| - 1;
    }
  }

  // ---------------------------------------------------------------------------
  // The fields of a matched file name (parse_filename)
  // ---------------------------------------------------------------------------

  /** The named groups of a successful match, as `m.groupdict()` gives them: a key for
      every group of the regex, None for a group that did not participate. */
  type Groups = map<string, Option<string>>

  /** A regex match of the compiled pattern yields exactly its groups, and a value for
      every group outside an optional part. */
  ghost predicate GroupsFit(segs: seq<Segment>, g: Groups) {
    (forall k :: k in g <==> exists i :: 0 <= i < |GroupSlots(segs)| && GroupSlots(segs)[i].group == k) &&
    (forall i :: 0 <= i < |GroupSlots(segs)| && !GroupSlots(segs)[i].optional ==> GroupSlots(segs)[i].group in g && g[GroupSlots(segs)[i].group].Some?)
  }

  /** `groups.get(key, "")`: "" when the regex has no such group, None when the group
      did not participate. */
  function GetOrEmpty(g: Groups, key: string): Option<string> {
    if key in g then g[key] else Some("")
  }

  /** The groups parse_filename reads as text, in the order it reads them. */
  const TextGroups: seq<string> := ["tag", "date", "last_name", "first_name", "description"]

  datatype ParseOutcome =
    | Parsed(fields: ParsedFilename)
    | NotParsed
      /** a group read as text did not participate: `.upper()`, `len()` or `.strip()`
          of None raises */
    | Raised(group: string)

  /** `groups.get("middle_initial")`, stripped when non-empty, None when that leaves
      nothing; an empty capture is falsy and kept as it is. */
  function MiddleInitialOf(g: Groups): (r: Option<string>)
    ensures r.Some? ==> "middle_initial" in g && g["middle_initial"].Some?
    ensures r.Some? && r.value != "" ==> r.value == Strip(g["middle_initial"].value)
    ensures r == Some("") ==> g["middle_initial"] == Some("")
    ensures "middle_initial" in g && g["middle_initial"].Some? && g["middle_initial"].value != "" ==>
      (r.None? <==> AllSpace(g["middle_initial"].value))
  {
    if "middle_initial" !in g then None
    else match g["middle_initial"]
      case None => None
      case Some(v) =>
        if v == "" then Some("")
        else if Strip(v) == "" then None
        else Some(Strip(v))
  }

  /** The ISO date of birth, when the dob group captured text that decodes. */
  function DobOf(g: Groups): (r: Option<string>)
    ensures r.Some? <==> "dob" in g && g["dob"].Some? && ParseDateMmddyy(g["dob"].value).Some?
    ensures r.Some? ==> r.value == IsoFormat(ParseDateMmddyy(g["dob"].value).value)
  {
    if "dob" !in g then None
    else match g["dob"]
      case None => None
      case Some(raw) =>
        if raw == "" then None
        else match ParseDateMmddyy(raw)
          case None => None
          case Some(d) => Some(IsoFormat(d))
  }

  /** What parse_filename reads from a match's groups: the five captures it uses as text
      (None when the group did not participate), the middle initial and the date of
      birth. */
  datatype Captures = Captures(
    tag: Option<string>,
    date: Option<string>,
    lastName: Option<string>,
    firstName: Option<string>,
    description: Option<string>,
    middleInitial: Option<string>,
    dob: Option<string>)

  function CapturesOf(g: Groups): Captures {
    Captures(GetOrEmpty(g, "tag"), GetOrEmpty(g, "date"), GetOrEmpty(g, "last_name"),
             GetOrEmpty(g, "first_name"), GetOrEmpty(g, "description"), MiddleInitialOf(g), DobOf(g))
  }

  /** The checks parse_filename makes on the captures, in the source's order. */
  function Validate(c: Captures, metatags: map<string, string>): ParseOutcome {
    match c.tag
    case None => Raised("tag")
    case Some(rawTag) =>
      if Upper(rawTag) !in metatags then NotParsed
      else match c.date
      case None => Raised("date")
      case Some(rawDate) =>
        match ParseDateMmddyy(rawDate)
        case None => NotParsed
        case Some(docDate) =>
          match c.lastName
          case None => Raised("last_name")
          case Some(rawLast) =>
            match c.firstName
            case None => Raised("first_name")
            case Some(rawFirst) =>
              match c.description
              case None => Raised("description")
              case Some(rawDescription) =>
                var tagCode := Upper(rawTag);
                var description := Strip(rawDescription);
                if Strip(rawLast) == "" || Strip(rawFirst) == "" then NotParsed
                else Parsed(ParsedFilename(
                  Strip(rawLast), Strip(rawFirst), c.middleInitial, c.dob, tagCode,
                  metatags[tagCode], IsoFormat(docDate),
                  if description == "" then metatags[tagCode] else description))
  }

  function ValidateGroups(g: Groups, metatags: map<string, string>): ParseOutcome {
    Validate(CapturesOf(g), metatags)
  }

  /** parse_filename: match the stem, then validate the groups. */
  function ParseFilename(filename: string, metatags: map<string, string>, matcher: string -> Option<Groups>): ParseOutcome {
    match matcher(Stem(filename))
    case None => NotParsed
    case Some(g) => ValidateGroups(g, metatags)
  }

  /** The file name is parsed exactly when every group read as text took part in the
      match (or is not in the pattern), the upper-cased tag is a metatag code, the date
      decodes, and both names are non-blank once stripped. */
  lemma {:induction false} ValidateParsed(c: Captures, metatags: map<string, string>)
    ensures Validate(c, metatags).Parsed? <==>
      c.tag.Some? && c.date.Some? && c.lastName.Some? && c.firstName.Some? && c.description.Some? &&
      Upper(c.tag.value) in metatags && ParseDateMmddyy(c.date.value).Some? &&
      Strip(c.lastName.value) != "" && Strip(c.firstName.value) != ""
  {
  }

  /** What a parsed file name holds: stripped non-blank names, a metatag code with its
      full name, the ISO text of the decoded document date, and a description that is
      the stripped capture or, when that is blank, the tag's full name. */
  lemma {:induction false} ValidateFields(c: Captures, metatags: map<string, string>, p: ParsedFilename)
    requires Validate(c, metatags) == Parsed(p)
    ensures c.tag.Some? && c.date.Some? && c.lastName.Some? && c.firstName.Some? && c.description.Some?
    ensures p.lastName != "" && p.firstName != ""
    ensures p.lastName == Strip(c.lastName.value) && Strip(p.lastName) == p.lastName
    ensures p.firstName == Strip(c.firstName.value) && Strip(p.firstName) == p.firstName
    ensures p.tagCode == Upper(c.tag.value) && p.tagCode in metatags && p.tagFull == metatags[p.tagCode]
    ensures ParseDateMmddyy(c.date.value).Some? && p.date == IsoFormat(ParseDateMmddyy(c.date.value).value)
    ensures Strip(c.description.value) != "" ==> p.description == Strip(c.description.value)
    ensures Strip(c.description.value) == "" ==> p.description == p.tagFull
    ensures p.middleInitial == c.middleInitial && p.dob == c.dob
  {
    ValidateParsed(c, metatags);
    var tagCode := Upper(c.tag.value);
    var description := Strip(c.description.value);
    assert p == ParsedFilename(
      Strip(c.lastName.value), Strip(c.firstName.value), c.middleInitial, c.dob, tagCode,
      metatags[tagCode], IsoFormat(ParseDateMmddyy(c.date.value).value),
      if description == "" then metatags[tagCode] else description);
    StripIdempotent(c.lastName.value);
    StripIdempotent(c.firstName.value);
  }

  /** Validation raises only on a text capture with no value, the first in reading order. */
  lemma {:induction false} ValidateRaised(c: Captures, metatags: map<string, string>)
    ensures Validate(c, metatags) == Raised("tag") <==> c.tag.None?
    ensures Validate(c, metatags) == Raised("date") <==> c.tag.Some? && Upper(c.tag.value) in metatags && c.date.None?
    ensures Validate(c, metatags).Raised? ==> Validate(c, metatags).group in TextGroups
    ensures c.tag.Some? && c.date.Some? && c.lastName.Some? && c.firstName.Some? && c.description.Some? ==>
      !Validate(c, metatags).Raised?
  {
  }

  /** parse_filename raises only by reading a group that did not participate. */
  lemma {:induction false} ValidateGroupsRaised(g: Groups, metatags: map<string, string>)
    ensures ValidateGroups(g, metatags).Raised? ==>
      ValidateGroups(g, metatags).group in TextGroups &&
      ValidateGroups(g, metatags).group in g && g[ValidateGroups(g, metatags).group].None?
  {
    var c := CapturesOf(g);
    ValidateRaised(c, metatags);
  }

  /** A match of a compiled pattern can make parse_filename raise only through a group
      that the pattern puts inside an optional "({x})" part. */
  lemma {:induction false} FitRaisesOnlyOptional(segs: seq<Segment>, g: Groups, metatags: map<string, string>)
    requires GroupsFit(segs, g)
    requires ValidateGroups(g, metatags).Raised?
    ensures exists i :: 0 <= i < |GroupSlots(segs)| && GroupSlots(segs)[i].group == ValidateGroups(g, metatags).group
    ensures forall i :: 0 <= i < |GroupSlots(segs)| && GroupSlots(segs)[i].group == ValidateGroups(g, metatags).group ==>
      GroupSlots(segs)[i].optional
  {
    ValidateGroupsRaised(g, metatags);
  }

  /** The date of birth never decides whether a file name parses: changing the dob
      capture changes the dob field and nothing else. */
  lemma {:induction false} DobNeverRejects(g: Groups, metatags: map<string, string>, v: Option<string>)
    ensures ValidateGroups(g["dob" := v], metatags).Parsed? == ValidateGroups(g, metatags).Parsed?
    ensures ValidateGroups(g, metatags).Parsed? ==>
      ValidateGroups(g["dob" := v], metatags).fields == ValidateGroups(g, metatags).fields.(dob := DobOf(g["dob" := v]))
    ensures !ValidateGroups(g, metatags).Parsed? ==> ValidateGroups(g["dob" := v], metatags) == ValidateGroups(g, metatags)
  {
    var c := CapturesOf(g);
    assert CapturesOf(g["dob" := v]) == c.(dob := DobOf(g["dob" := v]));
    ValidateDob(c, metatags, DobOf(g["dob" := v]));
  }

  lemma {:induction false} ValidateDob(c: Captures, metatags: map<string, string>, dob: Option<string>)
    ensures Validate(c.(dob := dob), metatags).Parsed? == Validate(c, metatags).Parsed?
    ensures Validate(c, metatags).Parsed? ==>
      Validate(c.(dob := dob), metatags).fields == Validate(c, metatags).fields.(dob := dob)
    ensures !Validate(c, metatags).Parsed? ==> Validate(c.(dob := dob), metatags) == Validate(c, metatags)
  {
    var c2 := c.(dob := dob);
    if c.tag.Some? && Upper(c.tag.value) in metatags && c.date.Some? && ParseDateMmddyy(c.date.value).Some?
      && c.lastName.Some? && c.firstName.Some? && c.description.Some?
    {
      ValidateParsed(c, metatags);
      ValidateParsed(c2, metatags);
      if Validate(c, metatags).Parsed? {
        ValidateFields(c, metatags, Validate(c, metatags).fields);
        ValidateFields(c2, metatags, Validate(c2, metatags).fields);
      }
    }
  }

  /** The extension of a file name never matters: only the stem is matched. */
  lemma {:induction false} ParseFilenameIgnoresExtension(base: string, ext1: string, ext2: string,
                                                        metatags: map<string, string>, matcher: string -> Option<Groups>)
    requires base != "" && ext1 != "" && ext2 != "" && '.' !in ext1 && '.' !in ext2
    ensures ParseFilename(base + "." + ext1, metatags, matcher) == ParseFilename(base + "." + ext2, metatags, matcher)
    ensures ParseFilename(base + "." + ext1, metatags, matcher) ==
      if matcher(base).Some? then ValidateGroups(matcher(base).value, metatags) else NotParsed
  {
    StemDropsExtension(base, ext1);
    StemDropsExtension(base, ext2);
  }
}
