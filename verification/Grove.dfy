/** Engine identifiers (`grove.rs`) and the reinstall rule that uses them. */
module Grove {
  import opened Wrappers
  import opened Digits

  const DISTRO_SLUG := "pwnda-grove"
  const EXPECTED_UPSTREAM_VERSION := "0.19.0"
  const EXPECTED_PATCH_LEVEL := 37

  const U64_MAX := 0xFFFF_FFFF_FFFF_FFFF
  const U32_MAX := 0xFFFF_FFFF

  /** Three upstream numbers and the patch level. */
  datatype Version = Version(major: nat, minor: nat, fix: nat, patch: nat)

  predicate InRange(v: Version) {
    v.major <= U64_MAX && v.minor <= U64_MAX && v.fix <= U64_MAX && v.patch <= U32_MAX
  }

  /** The shape every identifier is printed in: `pwnda-grove x.y.z+pN`. */
  function Print(v: Version): string {
    DISTRO_SLUG + " " + PrintUpstream(v) + "+p" + Dec(v.patch)
  }

  function PrintUpstream(v: Version): string {
    Dec(v.major) + "." + (Dec(v.minor) + "." + Dec(v.fix))
  }

  function ExpectedId(): string {
    DISTRO_SLUG + " " + EXPECTED_UPSTREAM_VERSION + "+p" + Dec(EXPECTED_PATCH_LEVEL)
  }

  /** `char::is_whitespace`. */
  predicate IsSpace(c: char) {
    var u := c as int;
    || 9 <= u <= 13 || u == 0x20 || u == 0x85 || u == 0xA0 || u == 0x1680 || 0x2000 <= u <= 0x200A
    || u == 0x2028 || u == 0x2029 || u == 0x202F || u == 0x205F || u == 0x3000
  }

  function TrimStart(s: string): string {
    if s != "" && IsSpace(s[0]) then TrimStart(s[1..]) else s
  }

  function TrimEnd(s: string): string {
    if s != "" && IsSpace(s[|s| - 1]) then TrimEnd(s[..|s| - 1]) else s
  }

  function StripPrefix(prefix: string, s: string): Option<string> {
    if prefix <= s then Some(s[|prefix|..]) else None
  }

  /** `str::split_once`: at the first occurrence. */
  function SplitOnce(sep: string, s: string): Option<(string, string)> {
    if sep <= s then Some(("", s[|sep|..]))
    else if s == "" then None
    else match SplitOnce(sep, s[1..])
      case None => None
      case Some(pair) => Some(([s[0]] + pair.0, pair.1))
  }

  /** The three numbers and the patch level, from the texts around `+p`. */
  function ParseVersion(upstream: string, patch: string): Option<Version> {
    var parts := Split('.', upstream);
    if |parts| != 3 then None else
      match (ParseUnsigned(parts[0], U64_MAX), ParseUnsigned(parts[1], U64_MAX),
             ParseUnsigned(parts[2], U64_MAX), ParseUnsigned(patch, U32_MAX))
      case (Some(major), Some(minor), Some(fix), Some(level)) => Some(Version(major, minor, fix, level))
      case _ => None
  }

  function ParseId(id: string): Option<Version> {
    match StripPrefix(DISTRO_SLUG, TrimEnd(TrimStart(id)))
    case None => None
    case Some(rest) =>
      match SplitOnce("+p", TrimStart(rest))
      case None => None
      case Some(pair) => ParseVersion(pair.0, pair.1)
  }

  /** The order of the parsed tuples. */
  predicate Newer(a: Version, b: Version) {
    if a.major != b.major then a.major > b.major
    else if a.minor != b.minor then a.minor > b.minor
    else if a.fix != b.fix then a.fix > b.fix
    else a.patch > b.patch
  }

  function Newest(a: Version, b: Version): Version {
    if Newer(b, a) then b else a
  }

  /** `is_ahead_of_expected`, for a build that expects `expected`. */
  predicate IsAhead(stamped: string, expected: string) {
    match (ParseId(stamped), ParseId(expected))
    case (Some(got), Some(want)) => Newer(got, want)
    case _ => false
  }

  // Printing and parsing.

  lemma NumeralText(n: nat)
    ensures Dec(n) != "" && forall c :: c in Dec(n) ==> IsDigit(c) && !IsSpace(c)
  {
    DecIsCanonical(n);
  }

  lemma {:induction false} SplitOnceAt(a: string, b: string)
    requires '+' !in a
    ensures SplitOnce("+p", a + "+p" + b) == Some((a, b))
  {
    var s := a + "+p" + b;
    if a == "" {
      assert s == "+p" + b;
    } else {
      SplitOnceAt(a[1..], b);
      assert s[1..] == a[1..] + "+p" + b;
      assert s[0] != '+';
      assert [a[0]] + a[1..] == a;
    }
  }

  lemma UpstreamText(v: Version)
    ensures PrintUpstream(v) != "" && forall c :: c in PrintUpstream(v) ==> IsDigit(c) || c == '.'
    ensures Split('.', PrintUpstream(v)) == [Dec(v.major), Dec(v.minor), Dec(v.fix)]
  {
    NumeralText(v.major);
    NumeralText(v.minor);
    NumeralText(v.fix);
    hide Dec, Split;
    var tail := Dec(v.minor) + "." + Dec(v.fix);
    SplitAt('.', Dec(v.major), tail);
    SplitAt('.', Dec(v.minor), Dec(v.fix));
    SplitNone('.', Dec(v.fix));
    assert PrintUpstream(v) == Dec(v.major) + ['.'] + tail;
    assert tail == Dec(v.minor) + ['.'] + Dec(v.fix);
  }

  lemma NothingToTrim(s: string)
    requires s != "" && !IsSpace(s[0]) && !IsSpace(s[|s| - 1])
    ensures TrimEnd(TrimStart(s)) == s
  {
  }

  lemma TrimOneSpace(s: string)
    requires s != "" && !IsSpace(s[0])
    ensures TrimStart(" " + s) == s
  {
    assert (" " + s)[1..] == s;
  }

  lemma ReadsTheBody(v: Version)
    ensures ParseId(Print(v)) == ParseVersion(PrintUpstream(v), Dec(v.patch))
  {
    UpstreamText(v);
    NumeralText(v.patch);
    hide Dec, PrintUpstream, ParseVersion, SplitOnce, TrimStart, TrimEnd;
    var body := PrintUpstream(v) + "+p" + Dec(v.patch);
    var id := Print(v);
    assert id == DISTRO_SLUG + (" " + body);
    assert id[0] == 'p' && id[|id| - 1] == Dec(v.patch)[|Dec(v.patch)| - 1];
    NothingToTrim(id);
    assert id[|DISTRO_SLUG|..] == " " + body;
    assert body[0] == PrintUpstream(v)[0] && body[0] in PrintUpstream(v);
    TrimOneSpace(body);
    SplitOnceAt(PrintUpstream(v), Dec(v.patch));
  }

  /** Reading a printed identifier gives the version back exactly when its numbers fit their
      types; otherwise nothing is read, rather than a wrapped version. */
  lemma ParseInvertsPrint(v: Version)
    ensures ParseId(Print(v)) == if InRange(v) then Some(v) else None
  {
    ReadsTheBody(v);
    UpstreamText(v);
    hide Dec, PrintUpstream, Split, ParseUnsigned;
    ParsePrinted(v.major, U64_MAX);
    ParsePrinted(v.minor, U64_MAX);
    ParsePrinted(v.fix, U64_MAX);
    ParsePrinted(v.patch, U32_MAX);
  }

  /** A text with exactly two dots, taken apart at them. */
  predicate ThreeParts(upstream: string, x: string, y: string, z: string) {
    upstream == x + "." + (y + "." + z) && '.' !in x && '.' !in y && '.' !in z
  }

  /** A version is read exactly from three numbers between dots and a patch level, each fitting its
      type. */
  lemma ReadsThreeNumbers(upstream: string, patch: string, v: Version)
    ensures ParseVersion(upstream, patch) == Some(v)
       <==> ParseUnsigned(patch, U32_MAX) == Some(v.patch)
            && exists x, y, z :: ThreeParts(upstream, x, y, z) && ParseUnsigned(x, U64_MAX) == Some(v.major)
                                 && ParseUnsigned(y, U64_MAX) == Some(v.minor)
                                    && ParseUnsigned(z, U64_MAX) == Some(v.fix)
  {
    hide ParseUnsigned, Split;
    if ParseVersion(upstream, patch) == Some(v) {
      var parts := Split('.', upstream);
      PartsOfThree(upstream, parts);
    }
    if x, y, z :| ThreeParts(upstream, x, y, z) && ParseUnsigned(x, U64_MAX) == Some(v.major)
                  && ParseUnsigned(y, U64_MAX) == Some(v.minor) && ParseUnsigned(z, U64_MAX) == Some(v.fix) {
      SplitOfThree(upstream, x, y, z);
    }
  }

  lemma PartsOfThree(upstream: string, parts: seq<string>)
    requires parts == Split('.', upstream) && |parts| == 3
    ensures ThreeParts(upstream, parts[0], parts[1], parts[2])
  {
    hide Split;
    SplitOff('.', upstream);
    var b :| upstream == parts[0] + ['.'] + b && parts[1..] == Split('.', b);
    SplitOff('.', b);
    var z :| b == parts[1] + ['.'] + z && parts[1..][1..] == Split('.', z);
    SplitOff('.', z);
    assert parts[1..][1..] == [parts[2]];
    assert upstream == parts[0] + "." + b && b == parts[1] + "." + z;
  }

  lemma SplitOfThree(upstream: string, x: string, y: string, z: string)
    requires ThreeParts(upstream, x, y, z)
    ensures Split('.', upstream) == [x, y, z]
  {
    hide Split;
    var tail := y + "." + z;
    SplitAt('.', x, tail);
    SplitAt('.', y, z);
    SplitNone('.', z);
    assert upstream == x + ['.'] + tail && tail == y + ['.'] + z;
  }

  /** The identifier this build expects is the one printed for 0.19.0 at patch level 37, so an
      installed engine is ahead of it exactly when it is a later version. */
  lemma ExpectedIsReadable(stamped: string)
    ensures ExpectedId() == Print(Version(0, 19, 0, 37))
    ensures IsAhead(stamped, ExpectedId())
        <==> ParseId(stamped).Some? && Newer(ParseId(stamped).value, Version(0, 19, 0, 37))
  {
    hide ParseId, Newer;
    var expected := Version(0, 19, 0, 37);
    ParseInvertsPrint(expected);
    UpstreamIsExpected();
    hide Dec, PrintUpstream;
    assert ExpectedId() == Print(expected);
  }

  lemma UpstreamIsExpected()
    ensures PrintUpstream(Version(0, 19, 0, 37)) == EXPECTED_UPSTREAM_VERSION
  {
    assert Dec(0) == "0" && Dec(19) == "19";
  }

  /** The order is strict and total, so a patch level decides between equal upstreams. */
  lemma NewerIsStrictTotalOrder(a: Version, b: Version, c: Version)
    ensures !Newer(a, a)
    ensures Newer(a, b) && Newer(b, c) ==> Newer(a, c)
    ensures a != b ==> (Newer(a, b) <==> !Newer(b, a))
    ensures a.(patch := 0) == b.(patch := 0) ==> (Newer(a, b) <==> a.patch > b.patch)
  {
  }

  /** The numbers of a version, in the order in which they decide. */
  function Numbers(v: Version): seq<nat> {
    [v.major, v.minor, v.fix, v.patch]
  }

  /** The first number in which two versions differ decides: the upstream ones from left to right, then
      the patch level. */
  lemma NewerByFirstDifference(a: Version, b: Version)
    ensures Newer(a, b) <==> exists k :: 0 <= k < 4 && Numbers(a)[k] > Numbers(b)[k]
                                         && forall j :: 0 <= j < k ==> Numbers(a)[j] == Numbers(b)[j]
  {
    var x, y := Numbers(a), Numbers(b);
    if Newer(a, b) {
      var k := if a.major != b.major then 0 else if a.minor != b.minor then 1 else if a.fix != b.fix then 2 else 3;
      assert x[k] > y[k];
    }
    if k :| 0 <= k < 4 && x[k] > y[k] && forall j :: 0 <= j < k ==> x[j] == y[j] {
      assert k > 0 ==> x[0] == y[0];
      assert k > 1 ==> x[1] == y[1];
      assert k > 2 ==> x[2] == y[2];
    }
  }

  // What may stand around an identifier.

  lemma {:induction false} TrimBehind(s: string, c: char)
    requires IsSpace(c)
    ensures TrimEnd(TrimStart(s + [c])) == TrimEnd(TrimStart(s))
  {
    if s == "" {
      assert s + [c] == [c] && [c][1..] == "";
    } else if IsSpace(s[0]) {
      assert (s + [c])[1..] == s[1..] + [c];
      TrimBehind(s[1..], c);
    } else {
      assert (s + [c])[..|s|] == s;
    }
  }

  /** White space around an identifier does not matter. */
  lemma SpaceAroundIsIgnored(id: string, c: char)
    requires IsSpace(c)
    ensures ParseId([c] + id) == ParseId(id) && ParseId(id + [c]) == ParseId(id)
  {
    assert ([c] + id)[1..] == id;
    TrimBehind(id, c);
  }

  // Runs of builds over one installation.

  /** One start of the app: the version that build expects, whether it carries an engine to
      install, and whether the engine's directories are this installation's own. */
  datatype Build = Build(expects: Version, bundled: bool, owned: bool)

  /** The version half of `reinstall_refusal`, and its directory half as a given. */
  predicate Refused(stamped: string, b: Build) {
    IsAhead(stamped, Print(b.expects)) || !b.owned
  }

  /** `reconcile_engine_at` when unpacking succeeds: the new stamp. `None` is an engine that is
      missing or carries no stamp. */
  function Reconcile(stamp: Option<string>, b: Build): Option<string> {
    var stamped := stamp.GetOr("unstamped");
    if stamp == Some(Print(b.expects)) || !b.bundled || Refused(stamped, b) then stamp
    else Some(Print(b.expects))
  }

  function RunBuilds(stamp: Option<string>, builds: seq<Build>): Option<string>
    decreases |builds|
  {
    if builds == [] then stamp else RunBuilds(Reconcile(stamp, builds[0]), builds[1..])
  }

  /** The version an installation can be seen to hold. */
  function Level(stamp: Option<string>): Option<Version> {
    match stamp
    case None => None
    case Some(id) => ParseId(id)
  }

  /** The newest of a level and the versions of the builds that are able to install theirs. */
  function Highest(level: Option<Version>, builds: seq<Build>): Option<Version>
    decreases |builds|
  {
    if builds == [] then level else
      var b := builds[0];
      Highest(if b.bundled && b.owned then Some(Raise(level, b.expects)) else level, builds[1..])
  }

  function Raise(level: Option<Version>, v: Version): Version {
    match level
    case None => v
    case Some(u) => Newest(u, v)
  }

  lemma UnstampedIsNotAVersion()
    ensures ParseId("unstamped").None?
  {
    assert TrimEnd(TrimStart("unstamped")) == "unstamped";
    assert "unstamped"[0] == 'u' && DISTRO_SLUG[0] == 'p';
    assert !(DISTRO_SLUG <= "unstamped");
  }

  lemma ReconcileRaises(stamp: Option<string>, b: Build)
    requires InRange(b.expects)
    ensures Level(Reconcile(stamp, b))
         == if b.bundled && b.owned then Some(Raise(Level(stamp), b.expects)) else Level(stamp)
  {
    UnstampedIsNotAVersion();
    ParseInvertsPrint(b.expects);
    hide Print, ParseId;
    if Level(stamp).Some? {
      NewerIsStrictTotalOrder(Level(stamp).value, b.expects, b.expects);
    }
  }

  /** Over any run of builds the installation ends at the newest version it started from or could
      install: it never moves backwards, and it is never left behind. */
  lemma {:induction false} RunEndsAtHighest(stamp: Option<string>, builds: seq<Build>)
    requires forall b :: b in builds ==> InRange(b.expects)
    ensures Level(RunBuilds(stamp, builds)) == Highest(Level(stamp), builds)
    decreases |builds|
  {
    if builds != [] {
      assert builds[0] in builds;
      ReconcileRaises(stamp, builds[0]);
      hide Level, Reconcile, Raise, InRange;
      RunEndsAtHighest(Reconcile(stamp, builds[0]), builds[1..]);
    }
  }

  lemma {:induction false} HighestIsHigh(level: Option<Version>, builds: seq<Build>)
    requires level.Some?
    ensures var h := Highest(level, builds);
      h.Some? && !Newer(level.value, h.value)
    decreases |builds|
  {
    if builds != [] {
      var b := builds[0];
      var next := if b.bundled && b.owned then Some(Raise(level, b.expects)) else level;
      HighestIsHigh(next, builds[1..]);
      NewerIsStrictTotalOrder(level.value, Highest(level, builds).value, next.value);
    }
  }

  /** A readable installed engine is never replaced by an older one. */
  lemma NeverMovesBackwards(stamp: Option<string>, builds: seq<Build>)
    requires Level(stamp).Some?
    requires forall b :: b in builds ==> InRange(b.expects)
    ensures var after := Level(RunBuilds(stamp, builds));
      after.Some? && !Newer(Level(stamp).value, after.value)
  {
    RunEndsAtHighest(stamp, builds);
    HighestIsHigh(Level(stamp), builds);
  }
}
