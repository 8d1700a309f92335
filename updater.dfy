/** Version handling of the self-updater (src/updater.py): reading a release tag as a
    tuple of integers, comparing such tuples as Python does, choosing the release
    archive for the platform and finding its download among the release's assets.
    The decisions of `check_for_update` and `self_update` are functions of what the
    release endpoint answered; the download, extraction and replacement of the binary
    are not part of this model. */
module Updater {
  import opened Wrappers
  import opened Text

  // ---------------------------------------------------------------------------
  // Reading a version tag
  // ---------------------------------------------------------------------------

  /** `s.lstrip("v")`: every leading 'v' removed. */
  function LStripV(s: string): (r: string)
    ensures |r| <= |s| && r == s[|s| - |r|..]
    ensures r == [] || r[0] != 'v'
    ensures forall i :: 0 <= i < |s| - |r| ==> s[i] == 'v'
  {
    if s != [] && s[0] == 'v' then LStripV(s[1..]) else s
  }

  /** Python's `int(s)` in base 10: surrounding whitespace, an optional sign, then at
      least one digit. On failure the offending text is the error. */
  function PyInt(s: string): (r: Result<int, string>)
    ensures r.Failure? ==> r.error == s
    ensures AllSpace(s) ==> r.Failure?
  {
    var t := Strip(s);
    var negative := t != [] && t[0] == '-';
    var digits := if t != [] && (t[0] == '+' || t[0] == '-') then t[1..] else t;
    if digits != [] && AllDigits(digits) then
      var magnitude: int := DigitsValue(digits);
      Success(if negative then -magnitude else magnitude)
    else Failure(s)
  }

  /** A plain digit string reads as its decimal value. */
  lemma {:induction false} PyIntDigits(s: string)
    requires s != [] && AllDigits(s)
    ensures PyInt(s) == Success(DigitsValue(s))
  {
    assert !IsSpace(s[0]) && !IsSpace(s[|s| - 1]);
    assert TrimStart(s) == s;
    assert TrimEnd(s) == s;
    assert s[0] != '+' && s[0] != '-';
  }

  /** Each component read in turn; the first that is not an integer is the error. */
  function ParseParts(parts: seq<string>): (r: Result<seq<int>, string>)
    ensures r.Success? ==> |r.value| == |parts|
    ensures r.Failure? ==> r.error in parts
  {
    if parts == [] then Success([])
    else
      match ParseParts(parts[..|parts| - 1])
      case Failure(e) => Failure(e)
      case Success(front) =>
        match PyInt(parts[|parts| - 1])
        case Failure(e) => Failure(e)
        case Success(n) => Success(front + [n])
  }

  /** Each component of a parsed version is `int` of the matching piece. */
  lemma {:induction false} ParsePartsReads(parts: seq<string>, i: int)
    requires ParseParts(parts).Success? && 0 <= i < |parts|
    ensures PyInt(parts[i]) == Success(ParseParts(parts).value[i])
  {
    if i < |parts| - 1 {
      ParsePartsReads(parts[..|parts| - 1], i);
    }
  }

  /** A failed parse names the first piece that is not an integer. */
  lemma {:induction false} ParsePartsFails(parts: seq<string>) returns (i: int)
    requires ParseParts(parts).Failure?
    ensures 0 <= i < |parts| && PyInt(parts[i]).Failure? && ParseParts(parts).error == parts[i]
    ensures forall j :: 0 <= j < i ==> PyInt(parts[j]).Success?
  {
    var front := parts[..|parts| - 1];
    if ParseParts(front).Failure? {
      i := ParsePartsFails(front);
      assert forall j :: 0 <= j < i ==> parts[j] == front[j];
    } else {
      i := |parts| - 1;
      forall j | 0 <= j < i
        ensures PyInt(parts[j]).Success?
      {
        ParsePartsReads(front, j);
      }
    }
  }

  /** Where every piece is an integer the parse succeeds. */
  lemma {:induction false} ParsePartsSucceeds(parts: seq<string>)
    requires forall j :: 0 <= j < |parts| ==> PyInt(parts[j]).Success?
    ensures ParseParts(parts).Success?
  {
    if ParseParts(parts).Failure? {
      var i := ParsePartsFails(parts);
      assert false;
    }
  }

  /** `_parse_version`: leading 'v's stripped, split on '.', each piece an integer. */
  function ParseVersion(tag: string): (r: Result<seq<int>, string>)
    ensures r.Success? ==> |r.value| == |Split(LStripV(tag), '.')|
  {
    ParseParts(Split(LStripV(tag), '.'))
  }

  /** A tag with an empty or blank component, such as "v1..2" or "", does not read. */
  lemma {:induction false} BlankComponentFails(tag: string, i: int)
    requires 0 <= i < |Split(LStripV(tag), '.')| && AllSpace(Split(LStripV(tag), '.')[i])
    ensures ParseVersion(tag).Failure?
  {
    if ParseVersion(tag).Success? {
      ParsePartsReads(Split(LStripV(tag), '.'), i);
      assert false;
    }
  }

  /** A version written as a tag: 'v' and the components joined by dots. */
  function FormatVersion(v: seq<nat>): string {
    "v" + Join(Digits(v), ".")
  }

  function Digits(v: seq<nat>): (parts: seq<string>)
    ensures |parts| == |v|
    ensures forall i :: 0 <= i < |v| ==> parts[i] == NatToString(v[i])
  {
    seq(|v|, i requires 0 <= i < |v| => NatToString(v[i]))
  }

  /** Reading a formatted version gives it back. */
  lemma {:induction false} FormatParseRoundTrip(v: seq<nat>)
    requires |v| >= 1
    ensures ParseVersion(FormatVersion(v)) == Success(v)
  {
    var parts := Digits(v);
    var text := Join(parts, ".");
    forall k | 0 <= k < |parts|
      ensures '.' !in parts[k]
    {
      assert AllDigits(parts[k]);
    }
    SplitJoin(parts, '.');
    assert text[0] != 'v' by {
      JoinStartsWithFirst(parts, ".");
      assert IsDigit(parts[0][0]);
    }
    assert LStripV(FormatVersion(v)) == text by {
      assert FormatVersion(v)[1..] == text;
    }
    ParseDigits(v);
  }

  lemma {:induction false} JoinStartsWithFirst(parts: seq<string>, sep: string)
    requires |parts| >= 1 && |parts[0]| >= 1
    ensures |Join(parts, sep)| >= 1 && Join(parts, sep)[0] == parts[0][0]
  {
    if |parts| > 1 {
      JoinStartsWithFirst(parts[..|parts| - 1], sep);
    }
  }

  lemma {:induction false} ParseDigits(v: seq<nat>)
    ensures ParseParts(Digits(v)) == Success(v)
    decreases |v|
  {
    if v != [] {
      var front := v[..|v| - 1];
      assert Digits(v)[..|v| - 1] == Digits(front);
      ParseDigits(front);
      PyIntDigits(NatToString(v[|v| - 1]));
      assert front + [v[|v| - 1]] == v;
    }
  }

  // ---------------------------------------------------------------------------
  // Tuple comparison
  // ---------------------------------------------------------------------------

  /** Python's `<` on tuples of integers: the first differing component decides, and
      a proper prefix is smaller. */
  function Less(a: seq<int>, b: seq<int>): bool
    decreases |a|
  {
    if a == [] then b != []
    else if b == [] then false
    else if a[0] != b[0] then a[0] < b[0]
    else Less(a[1..], b[1..])
  }

  /** Python's `<=` on tuples. */
  predicate LessEq(a: seq<int>, b: seq<int>) {
    Less(a, b) || a == b
  }

  /** a and b agree before position k and a is smaller at k. */
  predicate DiffersAt(a: seq<int>, b: seq<int>, k: int) {
    0 <= k < |a| && k < |b| && a[..k] == b[..k] && a[k] < b[k]
  }

  /** a is a proper prefix of b. */
  predicate IsProperPrefix(a: seq<int>, b: seq<int>) {
    |a| < |b| && a == b[..|a|]
  }

  /** The textbook definition of lexicographic order. */
  ghost predicate Lexicographic(a: seq<int>, b: seq<int>) {
    (exists k :: DiffersAt(a, b, k)) || IsProperPrefix(a, b)
  }

  lemma {:induction false} LessIsLexicographic(a: seq<int>, b: seq<int>)
    ensures Less(a, b) <==> Lexicographic(a, b)
    decreases |a|
  {
    if a != [] && b != [] {
      if a[0] < b[0] {
        assert DiffersAt(a, b, 0);
      } else if a[0] > b[0] {
        HeadDecides(a, b);
      } else {
        LessIsLexicographic(a[1..], b[1..]);
        LexicographicTail(a, b);
      }
    } else if a == [] && b != [] {
      assert IsProperPrefix(a, b);
    }
  }

  /** A larger first component rules the lexicographic order out. */
  lemma {:induction false} HeadDecides(a: seq<int>, b: seq<int>)
    requires a != [] && b != [] && a[0] > b[0]
    ensures !Lexicographic(a, b)
  {
    forall k | 0 <= k < |a| && k < |b|
      ensures !DiffersAt(a, b, k)
    {
      if k > 0 {
        assert a[..k][0] != b[..k][0];
      }
    }
    if |a| < |b| {
      assert a[0] != b[..|a|][0];
    }
  }

  /** Equal heads leave the order to the tails. */
  lemma {:induction false} LexicographicTail(a: seq<int>, b: seq<int>)
    requires a != [] && b != [] && a[0] == b[0]
    ensures Lexicographic(a, b) <==> Lexicographic(a[1..], b[1..])
  {
    var a', b' := a[1..], b[1..];
    if exists k :: DiffersAt(a, b, k) {
      var k :| DiffersAt(a, b, k);
      ShiftDown(a, b, k);
    }
    if exists k :: DiffersAt(a', b', k) {
      var k :| DiffersAt(a', b', k);
      ShiftUp(a, b, k);
    }
    if IsProperPrefix(a, b) {
      assert b'[..|a'|] == b[..|a|][1..];
    }
    if IsProperPrefix(a', b') {
      assert a == [a[0]] + a' && b[..|a|] == [b[0]] + b'[..|a'|];
    }
  }

  lemma {:induction false} ShiftDown(a: seq<int>, b: seq<int>, k: int)
    requires a != [] && b != [] && a[0] == b[0] && DiffersAt(a, b, k)
    ensures DiffersAt(a[1..], b[1..], k - 1)
  {
    assert k != 0;
    assert a[1..][..k - 1] == a[..k][1..];
    assert b[1..][..k - 1] == b[..k][1..];
  }

  lemma {:induction false} ShiftUp(a: seq<int>, b: seq<int>, k: int)
    requires a != [] && b != [] && a[0] == b[0] && DiffersAt(a[1..], b[1..], k)
    ensures DiffersAt(a, b, k + 1)
  {
    assert a[..k + 1] == [a[0]] + a[1..][..k];
    assert b[..k + 1] == [b[0]] + b[1..][..k];
  }

  /** Exactly one of a < b, a == b, b < a. */
  lemma {:induction false} LessTrichotomy(a: seq<int>, b: seq<int>)
    ensures Less(a, b) || a == b || Less(b, a)
    ensures !(Less(a, b) && Less(b, a))
    ensures !(Less(a, b) && a == b)
    decreases |a|
  {
    if a != [] && b != [] && a[0] == b[0] {
      LessTrichotomy(a[1..], b[1..]);
      if a[1..] == b[1..] {
        assert a == [a[0]] + a[1..] && b == [b[0]] + b[1..];
      }
    }
  }

  lemma {:induction false} LessTransitive(a: seq<int>, b: seq<int>, c: seq<int>)
    requires Less(a, b) && Less(b, c)
    ensures Less(a, c)
    decreases |a|
  {
    if a != [] && a[0] == b[0] && b[0] == c[0] {
      LessTransitive(a[1..], b[1..], c[1..]);
    }
  }

  /** `latest <= current` exactly when not `latest > current`. */
  lemma LessEqIsNotGreater(latest: seq<int>, current: seq<int>)
    ensures LessEq(latest, current) <==> !Less(current, latest)
  {
    LessTrichotomy(latest, current);
  }

  // ---------------------------------------------------------------------------
  // Platform and assets
  // ---------------------------------------------------------------------------

  /** `_get_platform_archive`: the archive for a system; any other system is
      unsupported. */
  function PlatformArchive(system: string): (r: Option<string>)
    ensures r.Some? <==> system == "Darwin" || system == "Linux" || system == "Windows"
  {
    if system == "Darwin" then Some("chrono-uploader-mac.tar.gz")
    else if system == "Linux" then Some("chrono-uploader-linux.tar.gz")
    else if system == "Windows" then Some("chrono-uploader-win.zip")
    else None
  }

  predicate EndsWith(s: string, suffix: string) {
    |suffix| <= |s| && s[|s| - |suffix|..] == suffix
  }

  /** The three supported systems get three different archives, a zip archive on
      Windows and a gzipped tar archive elsewhere, the two formats the extraction
      step tells apart. */
  lemma ArchiveFormats(s1: string, s2: string)
    requires PlatformArchive(s1).Some? && PlatformArchive(s2).Some?
    ensures PlatformArchive(s1) == PlatformArchive(s2) <==> s1 == s2
    ensures s1 == "Windows" <==> EndsWith(PlatformArchive(s1).value, ".zip")
    ensures s1 != "Windows" <==> EndsWith(PlatformArchive(s1).value, ".tar.gz")
  {
    var name := PlatformArchive(s1).value;
    if s1 == "Windows" {
      assert name[|name| - 4..] == ".zip";
      assert name[|name| - 7..] != ".tar.gz";
    } else {
      assert name[|name| - 7..] == ".tar.gz";
      assert name[|name| - 4..] != ".zip";
    }
  }

  /** An entry of the release's "assets" list. */
  datatype Asset = Asset(name: string, downloadUrl: string)

  /** The download of the first asset with the given name. */
  function FirstAsset(assets: seq<Asset>, name: string): (r: Option<string>)
    ensures r.Some? <==> exists i :: 0 <= i < |assets| && assets[i].name == name
    ensures r.Some? ==> exists i :: (0 <= i < |assets| && assets[i].name == name && r.value == assets[i].downloadUrl
      && forall j :: 0 <= j < i ==> assets[j].name != name)
  {
    if assets == [] then None
    else if assets[0].name == name then Some(assets[0].downloadUrl)
    else
      var r := FirstAsset(assets[1..], name);
      assert forall i :: 1 <= i < |assets| ==> assets[i] == assets[1..][i - 1];
      if r.Some? then
        var i :| 0 <= i < |assets| - 1 && assets[1..][i].name == name && r.value == assets[1..][i].downloadUrl
          && forall j :: 0 <= j < i ==> assets[1..][j].name != name;
        assert assets[i + 1] == assets[1..][i];
        r
      else r
  }

  /** The search in `self_update`: stops at the first asset named like the archive. */
  method FindAsset(assets: seq<Asset>, archiveName: string) returns (downloadUrl: Option<string>)
    ensures downloadUrl == FirstAsset(assets, archiveName)
  {
    downloadUrl := None;
    var i := 0;
    while i < |assets|
      invariant 0 <= i <= |assets|
      invariant FirstAsset(assets, archiveName) == FirstAsset(assets[i..], archiveName)
    {
      if assets[i].name == archiveName {
        downloadUrl := Some(assets[i].downloadUrl);
        break;
      }
      assert assets[i..][1..] == assets[i + 1..];
      i := i + 1;
    }
  }

  // ---------------------------------------------------------------------------
  // The two update decisions
  // ---------------------------------------------------------------------------

  /** The test in `self_update`: whether both versions read, and whether the latest
      is `<=` the running one. */
  datatype VersionCheck = Unreadable(component: string) | NotNewer | Newer

  function CheckVersions(latestTag: string, current: string): (c: VersionCheck)
    ensures c.Unreadable? <==> ParseVersion(latestTag).Failure? || ParseVersion(current).Failure?
    ensures c.Newer? <==> (!c.Unreadable? && Less(ParseVersion(current).value, ParseVersion(latestTag).value))
  {
    match ParseVersion(latestTag)
    case Failure(e) => Unreadable(e)
    case Success(latest) =>
      match ParseVersion(current)
      case Failure(e) => Unreadable(e)
      case Success(mine) =>
        LessEqIsNotGreater(latest, mine);
        if LessEq(latest, mine) then NotNewer else Newer
  }

  /** `check_for_update`: a notice exactly when the latest tag is greater than the
      running version; a failed request (None) or an unreadable version shows
      nothing. Its `>` agrees with the `<=` of `self_update`. */
  function UpdateNotice(latestTag: Option<string>, current: string): (notify: bool)
    ensures notify <==> latestTag.Some? && CheckVersions(latestTag.value, current).Newer?
  {
    match latestTag
    case None => false
    case Some(tag) =>
      match (ParseVersion(tag), ParseVersion(current))
      case (Success(latest), Success(mine)) => Less(mine, latest)
      case _ => false
  }

  /** The release as the endpoint returned it: its tag and its assets (a missing
      "assets" list is the empty one). */
  datatype Release = Release(tagName: string, assets: seq<Asset>)

  /** How `self_update` ends before the download. */
  datatype UpdatePlan =
    | CheckFailed                           // the request raised: error and exit
    | UnreadableVersion(component: string)  // int() raised on a component
    | UpToDate                              // "Already up to date"
    | UnsupportedPlatform(system: string)   // error and exit
    | NoAsset(archiveName: string)          // error and exit
    | Download(archiveName: string, url: string)

  /** `self_update` up to the download: a failed request exits, an unreadable tag
      raises, a release that is not newer stops, and otherwise the archive for the
      platform is looked up; a missing match, or a match with an empty URL, exits. */
  function PlanUpdate(release: Option<Release>, current: string, system: string): (p: UpdatePlan)
    ensures p.CheckFailed? <==> release.None?
    ensures p.UpToDate? <==> release.Some? && CheckVersions(release.value.tagName, current).NotNewer?
    ensures p.UnreadableVersion? <==> release.Some? && CheckVersions(release.value.tagName, current).Unreadable?
    ensures p.UnsupportedPlatform? <==>
      release.Some? && CheckVersions(release.value.tagName, current).Newer? && PlatformArchive(system).None?
    ensures p.Download? ==> release.Some? && CheckVersions(release.value.tagName, current).Newer?
    ensures p.Download? ==> PlatformArchive(system) == Some(p.archiveName) && p.url != ""
    ensures p.Download? ==> FirstAsset(release.value.assets, p.archiveName) == Some(p.url)
    ensures p.NoAsset? ==> PlatformArchive(system) == Some(p.archiveName)
    ensures p.NoAsset? ==> release.Some? && FirstAsset(release.value.assets, p.archiveName) in {None, Some("")}
  {
    match release
    case None => CheckFailed
    case Some(r) =>
      match CheckVersions(r.tagName, current)
      case Unreadable(e) => UnreadableVersion(e)
      case NotNewer => UpToDate
      case Newer =>
        match PlatformArchive(system)
        case None => UnsupportedPlatform(system)
        case Some(archive) =>
          match FirstAsset(r.assets, archive)
          case None => NoAsset(archive)
          case Some(url) => if url == "" then NoAsset(archive) else Download(archive, url)
  }

  /** The start-up notice shows exactly when `update` would go past "Already up to
      date" to the platform and asset checks. */
  lemma NoticeMatchesUpdate(release: Release, current: string, system: string)
    ensures UpdateNotice(Some(release.tagName), current) <==>
      PlanUpdate(Some(release), current, system).UnsupportedPlatform?
      || PlanUpdate(Some(release), current, system).NoAsset?
      || PlanUpdate(Some(release), current, system).Download?
  {
  }
}
