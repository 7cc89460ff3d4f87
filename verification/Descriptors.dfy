/** Building account descriptors and recognising them in the node's listing (`descriptors.rs`). */
module Descriptors {
  import opened Wrappers
  import opened Digits
  import opened Texts
  import StableSort

  datatype UtxoChain = Btc | Ltc | Doge | Bch | Dash {
    function Slip44(): nat {
      match this
      case Btc => 0
      case Ltc => 2
      case Doge => 3
      case Bch => 145
      case Dash => 5
    }

    function Purpose(): nat {
      match this
      case Btc | Ltc => 84
      case Doge | Bch | Dash => 44
    }
  }

  const U32_MAX := 0xFFFF_FFFF

  /** Both branches an import covers: the receiving one and the change one. */
  const BRANCHES: seq<(nat, bool)> := [(0, false), (1, true)]

  function OriginPath(chain: UtxoChain): string {
    Dec(chain.Purpose()) + "h/" + Dec(chain.Slip44()) + "h/0h"
  }

  function DescriptorFn(chain: UtxoChain): string {
    if chain.Purpose() == 84 then "wpkh" else "pkh"
  }

  /** The text in front of the branch. */
  function Head(fingerprint: string, chain: UtxoChain, key: string): string {
    DescriptorFn(chain) + "([" + fingerprint + "/" + OriginPath(chain) + "]" + key
  }

  function BuildDescriptor(fingerprint: string, chain: UtxoChain, key: string, branch: nat): string {
    Head(fingerprint, chain, key) + "/" + Dec(branch) + "/*)"
  }

  /** `reply` is the checksum field of the daemon's answer, if it is there and is a string. */
  function ComposeChecksummed(desc: string, reply: Option<string>): Result<string, string> {
    match reply
    case None => Err("the daemon's getdescriptorinfo reply carried no checksum")
    case Some(checksum) => Ok(desc + "#" + checksum)
  }

  /** The text before the first `c`, or all of it. */
  function Before(c: char, s: string): string {
    if s == "" || s[0] == c then "" else [s[0]] + Before(c, s[1..])
  }

  /** `str::find`, giving what comes before the first occurrence. */
  function BeforeText(t: string, s: string): Option<string> {
    if t <= s then Some("")
    else if s == "" then None
    else match BeforeText(t, s[1..])
      case None => None
      case Some(head) => Some([s[0]] + head)
  }

  /** What follows the last `c`, if there is one. */
  function AfterLast(c: char, s: string): Option<string> {
    if s == "" then None
    else if s[|s| - 1] == c then Some("")
    else match AfterLast(c, s[..|s| - 1])
      case None => None
      case Some(tail) => Some(tail + [s[|s| - 1]])
  }

  function TrailingBranch(desc: string): Option<nat> {
    match BeforeText("/*", Before('#', desc))
    case None => None
    case Some(head) =>
      match AfterLast('/', head)
      case None => None
      case Some(number) => ParseUnsigned(number, U32_MAX)
  }

  function Lower(c: char): char {
    if 'A' <= c <= 'Z' then (c as int + 32) as char else c
  }

  /** `to_ascii_lowercase`. */
  function ToLower(s: string): (r: string)
    ensures |r| == |s| && forall i :: 0 <= i < |s| ==> r[i] == Lower(s[i])
  {
    seq(|s|, i requires 0 <= i < |s| => Lower(s[i]))
  }

  /** A listed descriptor whose key origin names this fingerprint, in either case of letter. */
  predicate IsOurs(desc: string, fingerprint: string) {
    Contains(ToLower(desc), "[" + ToLower(fingerprint) + "/")
  }

  /** A listing: `None` when the reply has no descriptor array, and a `None` entry for one without
      a descriptor string. */
  type Listing = Option<seq<Option<string>>>

  predicate Shows(entry: Option<string>, fingerprint: string, branch: nat) {
    entry.Some? && IsOurs(entry.value, fingerprint) && TrailingBranch(entry.value) == Some(branch)
  }

  ghost predicate Listed(listed: Listing, fingerprint: string, branch: nat) {
    listed.Some? && exists i :: 0 <= i < |listed.value| && Shows(listed.value[i], fingerprint, branch)
  }

  predicate Ascending(a: nat, b: nat) {
    a <= b
  }

  /** `Vec::dedup`: drops an element equal to the one before it. */
  function Dedup(s: seq<nat>): seq<nat> {
    if |s| < 2 then s
    else if s[|s| - 1] == s[|s| - 2] then Dedup(s[..|s| - 1])
    else Dedup(s[..|s| - 1]) + [s[|s| - 1]]
  }

  lemma {:induction false} DedupSorted(s: seq<nat>)
    requires StableSort.Sorted(Ascending, s)
    ensures forall b :: b in s <==> b in Dedup(s)
    ensures forall i, j :: 0 <= i < j < |Dedup(s)| ==> Dedup(s)[i] < Dedup(s)[j]
    ensures s != [] ==> Dedup(s) != [] && Dedup(s)[|Dedup(s)| - 1] == s[|s| - 1]
  {
    if |s| >= 2 {
      var front, last := s[..|s| - 1], s[|s| - 1];
      DedupSorted(front);
      assert s == front + [last];
      var d := Dedup(front);
      assert Ascending(s[|s| - 2], last);
      assert d[|d| - 1] == s[|s| - 2];
    }
  }

  /** The branches found under our origin: each once, in ascending order, nothing missed. */
  method ReadBackBranches(listed: Listing, fingerprint: string) returns (out: seq<nat>)
    ensures forall b :: b in out <==> Listed(listed, fingerprint, b)
    ensures forall i, j :: 0 <= i < j < |out| ==> out[i] < out[j]
  {
    out := [];
    if listed.Some? {
      for k := 0 to |listed.value|
        invariant forall b :: b in out <==> exists i :: 0 <= i < k && Shows(listed.value[i], fingerprint, b)
      {
        var entry := listed.value[k];
        if entry.Some? && IsOurs(entry.value, fingerprint) {
          var branch := TrailingBranch(entry.value);
          if branch.Some? {
            out := out + [branch.value];
          }
        }
      }
    }
    ghost var found := out;
    StableSort.SortPermutes(Ascending, found);
    StableSort.SortSorted(Ascending, found);
    out := StableSort.Sort(Ascending, out);
    DedupSorted(out);
    out := Dedup(out);
  }

  method ReadBackConfirms(listed: Listing, fingerprint: string) returns (ok: bool)
    ensures ok <==> Listed(listed, fingerprint, 0) && Listed(listed, fingerprint, 1)
  {
    var found := ReadBackBranches(listed, fingerprint);
    ok := true;
    for k := 0 to |BRANCHES|
      invariant ok <==> forall i :: 0 <= i < k ==> Listed(listed, fingerprint, BRANCHES[i].0)
    {
      ok := ok && BRANCHES[k].0 in found;
    }
    assert BRANCHES[0].0 == 0 && BRANCHES[1].0 == 1;
  }

  // Round trip.

  /** No `#`, and no `/` followed by `*`: what the parser would take for the end of the branch. */
  predicate Plain(s: string) {
    '#' !in s && forall i :: 0 < i < |s| ==> s[i - 1] == '/' ==> s[i] != '*'
  }

  lemma {:induction false} BeforeAt(c: char, a: string, b: string)
    requires c !in a
    ensures Before(c, a + [c] + b) == a
  {
    var s := a + [c] + b;
    if a != "" {
      BeforeAt(c, a[1..], b);
      assert s[1..] == a[1..] + [c] + b;
    }
  }

  lemma {:induction false} BeforeNone(c: char, a: string)
    requires c !in a
    ensures Before(c, a) == a
  {
    if a != "" {
      BeforeNone(c, a[1..]);
    }
  }

  lemma {:induction false} BeforeStar(a: string, b: string)
    requires forall i :: 0 < i < |a| ==> a[i - 1] == '/' ==> a[i] != '*'
    requires a == "" || a[|a| - 1] != '/'
    ensures BeforeText("/*", a + "/*" + b) == Some(a)
  {
    var s := a + "/*" + b;
    if a == "" {
      assert s == "/*" + b;
    } else {
      assert s[0] == a[0];
      assert |a| > 1 ==> s[1] == a[1];
      BeforeStar(a[1..], b);
      assert s[1..] == a[1..] + "/*" + b;
      assert [a[0]] + a[1..] == a;
    }
  }

  lemma {:induction false} AfterLastAt(c: char, a: string, b: string)
    requires c !in b
    ensures AfterLast(c, a + [c] + b) == Some(b)
  {
    var s := a + [c] + b;
    if b == "" {
      assert s[|s| - 1] == c;
    } else {
      AfterLastAt(c, a, b[..|b| - 1]);
      assert s[..|s| - 1] == a + [c] + b[..|b| - 1];
      assert b[..|b| - 1] + [b[|b| - 1]] == b;
    }
  }

  lemma OriginText(chain: UtxoChain)
    ensures forall c :: c in OriginPath(chain) ==> c != '#' && c != '*' && c != '['
  {
    DecIsCanonical(chain.Purpose());
    DecIsCanonical(chain.Slip44());
  }

  lemma PlainHead(fingerprint: string, chain: UtxoChain, key: string)
    requires Plain(fingerprint) && Plain(key)
    ensures Plain(Head(fingerprint, chain, key))
  {
    OriginText(chain);
    hide OriginPath;
    var front, origin := DescriptorFn(chain) + "([", "/" + OriginPath(chain) + "]";
    assert Plain(front) && front[|front| - 1] != '/';
    PlainConcat(front, fingerprint);
    assert forall c :: c in origin ==> c != '#' && c != '*';
    PlainText(origin);
    PlainConcat(front + fingerprint, origin);
    PlainConcat(front + fingerprint + origin, key);
    assert Head(fingerprint, chain, key) == front + fingerprint + origin + key;
  }

  lemma PlainText(s: string)
    requires forall c :: c in s ==> c != '#' && c != '*'
    ensures Plain(s)
  {
    forall i | 0 < i < |s| ensures s[i] != '*' {
      assert s[i] in s;
    }
  }

  lemma PlainConcat(a: string, b: string)
    requires Plain(a) && Plain(b)
    requires a == "" || b == "" || a[|a| - 1] != '/' || b[0] != '*'
    ensures Plain(a + b)
  {
  }

  lemma NumeralIsPlain(n: nat)
    ensures Dec(n) != "" && Plain(Dec(n)) && '/' !in Dec(n)
    ensures forall c :: c in Dec(n) ==> c != '*' && c != '#' && c != '/'
  {
    DecIsCanonical(n);
  }

  lemma PathIsPlain(head: string, number: string)
    requires Plain(head) && Plain(number) && number != "" && forall c :: c in number ==> c != '*'
    ensures Plain(head + "/" + number)
  {
    PlainConcat(head, "/");
    assert number[0] in number;
    PlainConcat(head + "/", number);
  }

  /** The number between the last `/` and the star is what a path without an earlier star ends in. */
  lemma ReadsNumber(head: string, number: string)
    requires Plain(head + "/" + number) && number != "" && '/' !in number
    ensures TrailingBranch(head + "/" + number + "/*)") == ParseUnsigned(number, U32_MAX)
  {
    var path := head + "/" + number;
    assert path + "/*)" == path + "/*" + ")" && path == head + ['/'] + number;
    assert path[|path| - 1] == number[|number| - 1];
    hide ParseUnsigned, Before, BeforeText, AfterLast;
    BeforeNone('#', path + "/*)");
    BeforeStar(path, ")");
    AfterLastAt('/', head, number);
  }

  /** A checksum is not looked at. */
  lemma ChecksumIsIgnored(desc: string, checksum: string)
    requires '#' !in desc
    ensures TrailingBranch(desc + "#" + checksum) == TrailingBranch(desc)
  {
    hide ParseUnsigned, Before, BeforeText, AfterLast;
    assert desc + "#" + checksum == desc + ['#'] + checksum;
    BeforeAt('#', desc, checksum);
    BeforeNone('#', desc);
  }

  /** The branch that was built in is the branch that is read back, whatever checksum follows,
      for every branch that fits 32 bits; a larger one reads as none. The fingerprint and the key
      may hold anything but a `#` or a `/` followed by a `*`. */
  lemma BranchRoundTrip(fingerprint: string, chain: UtxoChain, key: string, branch: nat, checksum: string)
    requires Plain(fingerprint) && Plain(key)
    ensures var desc := BuildDescriptor(fingerprint, chain, key, branch);
      var expected := if branch <= U32_MAX then Some(branch) else None;
      && ComposeChecksummed(desc, Some(checksum)).Ok?
      && TrailingBranch(ComposeChecksummed(desc, Some(checksum)).value) == expected
      && TrailingBranch(desc) == expected
  {
    hide Head, Dec, ParseUnsigned, TrailingBranch;
    var head, number := Head(fingerprint, chain, key), Dec(branch);
    PlainHead(fingerprint, chain, key);
    NumeralIsPlain(branch);
    PathIsPlain(head, number);
    ReadsNumber(head, number);
    ParsePrinted(branch, U32_MAX);
    ChecksumIsIgnored(BuildDescriptor(fingerprint, chain, key, branch), checksum);
  }

  lemma LowerConcat(a: string, b: string)
    ensures ToLower(a + b) == ToLower(a) + ToLower(b)
  {
  }

  lemma NeedleIsFound(a: string, fingerprint: string, b: string)
    ensures IsOurs(a + ("[" + fingerprint + "/") + b, fingerprint)
  {
    var t := "[" + fingerprint + "/";
    LowerConcat("[", fingerprint);
    LowerConcat("[" + fingerprint, "/");
    assert ToLower("[") == "[" && ToLower("/") == "/";
    LowerConcat(a, t);
    LowerConcat(a + t, b);
    ContainsMiddle(ToLower(a), ToLower(t), ToLower(b));
  }

  lemma OursIsOurs(fingerprint: string, chain: UtxoChain, key: string, branch: nat, checksum: string)
    ensures IsOurs(BuildDescriptor(fingerprint, chain, key, branch) + "#" + checksum, fingerprint)
  {
    hide OriginPath, Dec, IsOurs, DescriptorFn;
    var front := DescriptorFn(chain) + "(";
    var tail := OriginPath(chain) + "]" + key + ("/" + Dec(branch) + "/*)") + "#" + checksum;
    assert BuildDescriptor(fingerprint, chain, key, branch) + "#" + checksum
        == front + ("[" + fingerprint + "/") + tail;
    NeedleIsFound(front, fingerprint, tail);
  }

  /** Where a text has its only bracket, the fingerprint is what stands between that and the slash. */
  lemma OnlyOneNeedle(a: string, mine: string, b: string, other: string)
    requires '[' !in a && '[' !in mine && '[' !in b && '/' !in mine && '/' !in other
    requires IsOurs(a + "[" + mine + "/" + b, other)
    ensures ToLower(mine) == ToLower(other)
  {
    var d, needle, tail := a + "[" + mine + "/" + b, ToLower(other) + "/", mine + "/" + b;
    NoBracketIn(mine, b);
    Regroup(a + "[", mine, "/");
    Regroup(a + "[", mine + "/", b);
    Regroup("[", ToLower(other), "/");
    hide ToLower;
    var i := FindNeedle(d, "[" + needle);
    BracketStays(d, "[" + needle, i);
    BracketAt(a, tail, i);
    BehindTheBracket(a, tail, needle);
    SlashEnds(mine, b, other, ToLower(tail));
  }

  lemma NoBracketIn(mine: string, b: string)
    requires '[' !in mine && '[' !in b
    ensures '[' !in mine + "/" + b
  {
  }

  lemma FindNeedle(d: string, needle: string) returns (i: nat)
    requires Contains(ToLower(d), needle)
    ensures At(ToLower(d), needle, i)
  {
    i :| 0 <= i <= |ToLower(d)| - |needle| && At(ToLower(d), needle, i);
  }

  lemma BracketStays(d: string, needle: string, i: nat)
    requires At(ToLower(d), needle, i) && needle != "" && needle[0] == '['
    ensures i < |d| && d[i] == '['
  {
    assert ToLower(d)[i..i + |needle|][0] == ToLower(d)[i] == Lower(d[i]);
  }

  lemma BehindTheBracket(a: string, tail: string, needle: string)
    requires At(ToLower(a + "[" + tail), "[" + needle, |a|)
    ensures needle <= ToLower(tail)
  {
    var s := ToLower(a + "[" + tail);
    assert s[|a| + 1..] == ToLower(tail);
    assert s[|a|..|a| + 1 + |needle|] == "[" + needle;
    assert s[|a| + 1..|a| + 1 + |needle|] == needle;
  }

  lemma BracketAt(a: string, b: string, i: nat)
    requires '[' !in a && '[' !in b && i < |a + "[" + b| && (a + "[" + b)[i] == '['
    ensures i == |a|
  {
    var s := a + "[" + b;
    forall j | 0 <= j < |s| && j != |a| ensures s[j] != '[' {
      assert s[j] == if j < |a| then a[j] else b[j - |a| - 1];
      assert s[j] in a || s[j] in b;
    }
  }

  lemma SlashEnds(mine: string, b: string, other: string, rest: string)
    requires '/' !in mine && '/' !in other
    requires rest == ToLower(mine + "/" + b) && ToLower(other) + "/" <= rest
    ensures ToLower(mine) == ToLower(other)
  {
    var x, y := ToLower(mine), ToLower(other);
    assert rest == x + "/" + ToLower(b);
    FirstSlash(x, rest);
    FirstSlash(y, rest);
    assert rest[..|x|] == x && rest[..|y|] == y;
  }

  lemma FirstSlash(w: string, rest: string)
    requires '/' !in w && w + "/" <= rest
    ensures rest[|w|] == '/' && forall j :: 0 <= j < |w| ==> rest[j] != '/'
  {
    assert rest[|w|] == (w + "/")[|w|];
    forall j | 0 <= j < |w| ensures rest[j] != '/' {
      assert rest[j] == (w + "/")[j] == w[j];
      assert w[j] in w;
    }
  }

  /** A built descriptor is taken for ours exactly under its own fingerprint, case aside. */
  lemma OursExactly(fingerprint: string, chain: UtxoChain, key: string, branch: nat, checksum: string, other: string)
    requires '[' !in fingerprint && '[' !in key && '[' !in checksum && '/' !in fingerprint && '/' !in other
    ensures IsOurs(BuildDescriptor(fingerprint, chain, key, branch) + "#" + checksum, other)
       <==> SameLetters(fingerprint, other)
  {
    var desc := BuildDescriptor(fingerprint, chain, key, branch) + "#" + checksum;
    LoweredLetters(fingerprint, other);
    if ToLower(fingerprint) == ToLower(other) {
      OursIsOurs(fingerprint, chain, key, branch, checksum);
    }
    if IsOurs(desc, other) {
      var tail := OriginPath(chain) + "]" + key + ("/" + Dec(branch) + "/*)") + "#" + checksum;
      NoBracketBehind(chain, key, branch, checksum);
      hide OriginPath, Dec, IsOurs, DescriptorFn, SameLetters;
      AroundTheFingerprint(DescriptorFn(chain), fingerprint, OriginPath(chain), key, Dec(branch), checksum);
      OnlyOneNeedle(DescriptorFn(chain) + "(", fingerprint, tail, other);
    }
  }

  lemma LoweredLetters(a: string, b: string)
    ensures SameLetters(a, b) <==> ToLower(a) == ToLower(b)
  {
    var x, y := ToLower(a), ToLower(b);
    assert forall i :: 0 <= i < |a| && i < |b| ==> (SameLetter(a[i], b[i]) <==> x[i] == y[i]);
  }

  lemma AroundTheFingerprint(fn: string, fingerprint: string, origin: string, key: string, number: string,
                             checksum: string)
    ensures fn + "([" + fingerprint + "/" + origin + "]" + key + "/" + number + "/*)" + "#" + checksum
         == fn + "(" + "[" + fingerprint + "/" + (origin + "]" + key + ("/" + number + "/*)") + "#" + checksum)
  {
    var front, path := fn + "([" + fingerprint + "/", "/" + number + "/*)";
    Regroup(fn, "(", "[");
    assert "(" + "[" == "([";
    Regroup(front, origin, "]");
    Regroup(front, origin + "]", key);
    Regroup(front + origin + "]" + key, "/", number);
    Regroup(front + origin + "]" + key, "/" + number, "/*)");
    Regroup(front, origin + "]" + key, path);
    Regroup(front, origin + "]" + key + path, "#");
    Regroup(front, origin + "]" + key + path + "#", checksum);
  }

  lemma Regroup(a: string, b: string, c: string)
    ensures a + b + c == a + (b + c)
  {
  }

  lemma NoBracketBehind(chain: UtxoChain, key: string, branch: nat, checksum: string)
    requires '[' !in key && '[' !in checksum
    ensures '[' !in OriginPath(chain) + "]" + key + ("/" + Dec(branch) + "/*)") + "#" + checksum
    ensures '[' !in DescriptorFn(chain) + "("
  {
    OriginText(chain);
    DecIsCanonical(branch);
    hide OriginPath, Dec;
  }

  function Opening(chain: UtxoChain): string {
    match chain
    case Btc => "wpkh(["
    case Ltc => "wpkh(["
    case Doge => "pkh(["
    case Bch => "pkh(["
    case Dash => "pkh(["
  }

  function AccountPath(chain: UtxoChain): string {
    match chain
    case Btc => "84h/0h/0h"
    case Ltc => "84h/2h/0h"
    case Doge => "44h/3h/0h"
    case Bch => "44h/145h/0h"
    case Dash => "44h/5h/0h"
  }

  /** The descriptors that are imported, chain by chain. */
  lemma DescriptorText(fingerprint: string, chain: UtxoChain, key: string, branch: nat)
    ensures BuildDescriptor(fingerprint, chain, key, branch)
         == Opening(chain) + fingerprint + "/" + AccountPath(chain) + "]" + key + "/" + Dec(branch) + "/*)"
  {
    Origins();
    assert OriginPath(chain) == AccountPath(chain);
    assert DescriptorFn(chain) + "([" == Opening(chain);
    hide OriginPath, Dec, DescriptorFn, Opening, AccountPath;
  }

  lemma Origins()
    ensures OriginPath(Btc) == "84h/0h/0h" && OriginPath(Ltc) == "84h/2h/0h" && OriginPath(Doge) == "44h/3h/0h"
    ensures OriginPath(Bch) == "44h/145h/0h" && OriginPath(Dash) == "44h/5h/0h"
  {
    assert Dec(84) == "84" && Dec(44) == "44" && Dec(0) == "0" && Dec(2) == "2" && Dec(3) == "3" && Dec(5) == "5";
    assert Dec(14) == "14" && Dec(145) == "145";
  }

  /** A descriptor as it was built, and the checksum the node shows behind it. */
  datatype Built = Built(fingerprint: string, chain: UtxoChain, key: string, branch: nat, checksum: string) {
    function Shown(): string {
      BuildDescriptor(fingerprint, chain, key, branch) + "#" + checksum
    }

    predicate WellFormed() {
      && Plain(fingerprint) && Plain(key) && '/' !in fingerprint
      && '[' !in fingerprint && '[' !in key && '[' !in checksum
    }
  }

  lemma ShowsExactly(d: Built, fingerprint: string, branch: nat)
    requires d.WellFormed() && '/' !in fingerprint
    ensures Shows(Some(d.Shown()), fingerprint, branch)
       <==> SameLetters(d.fingerprint, fingerprint) && d.branch == branch <= U32_MAX
  {
    OursExactly(d.fingerprint, d.chain, d.key, d.branch, d.checksum, fingerprint);
    BranchRoundTrip(d.fingerprint, d.chain, d.key, d.branch, d.checksum);
    hide BuildDescriptor, TrailingBranch, IsOurs, Plain, SameLetters;
  }

  function ListingOf(built: seq<Built>): Listing {
    Some(seq(|built|, i requires 0 <= i < |built| => Some(built[i].Shown())))
  }

  /** In a listing of built descriptors the branches of a fingerprint are those that were built under
      it, case aside, with a number of 32 bits: no other wallet's descriptor counts. */
  lemma ListedExactly(built: seq<Built>, fingerprint: string, branch: nat)
    requires '/' !in fingerprint && forall d :: d in built ==> d.WellFormed()
    ensures Listed(ListingOf(built), fingerprint, branch)
       <==> exists d :: d in built && SameLetters(d.fingerprint, fingerprint) && d.branch == branch <= U32_MAX
  {
    hide Shows, SameLetters, Built.WellFormed, Built.Shown;
    var shown := ListingOf(built).value;
    forall i | 0 <= i < |built|
      ensures Shows(shown[i], fingerprint, branch)
         <==> SameLetters(built[i].fingerprint, fingerprint) && built[i].branch == branch <= U32_MAX
    {
      assert built[i] in built;
      ShowsExactly(built[i], fingerprint, branch);
    }
    if d :| d in built && SameLetters(d.fingerprint, fingerprint) && d.branch == branch <= U32_MAX {
      var i :| 0 <= i < |built| && built[i] == d;
      assert Shows(shown[i], fingerprint, branch);
    }
  }

  /** An import whose two descriptors are both in the listing is confirmed, whatever else is listed,
      whatever form of the key the node shows and whatever checksums it adds. */
  lemma ImportIsConfirmed(listed: seq<Option<string>>, fingerprint: string, chain: UtxoChain,
                          keys: (string, string), sums: (string, string))
    requires Plain(fingerprint) && Plain(keys.0) && Plain(keys.1)
    requires Some(BuildDescriptor(fingerprint, chain, keys.0, BRANCHES[0].0) + "#" + sums.0) in listed
    requires Some(BuildDescriptor(fingerprint, chain, keys.1, BRANCHES[1].0) + "#" + sums.1) in listed
    ensures Listed(Some(listed), fingerprint, 0) && Listed(Some(listed), fingerprint, 1)
  {
    BranchRoundTrip(fingerprint, chain, keys.0, 0, sums.0);
    BranchRoundTrip(fingerprint, chain, keys.1, 1, sums.1);
    OursIsOurs(fingerprint, chain, keys.0, 0, sums.0);
    OursIsOurs(fingerprint, chain, keys.1, 1, sums.1);
    hide IsOurs, TrailingBranch, BuildDescriptor;
    var i0 :| 0 <= i0 < |listed| && listed[i0] == Some(BuildDescriptor(fingerprint, chain, keys.0, 0) + "#" + sums.0);
    var i1 :| 0 <= i1 < |listed| && listed[i1] == Some(BuildDescriptor(fingerprint, chain, keys.1, 1) + "#" + sums.1);
    assert Shows(listed[i0], fingerprint, 0);
    assert Shows(listed[i1], fingerprint, 1);
  }
}
