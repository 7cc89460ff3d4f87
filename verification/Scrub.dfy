/** The replacement loop of `scrub` (`descriptors.rs`). Texts are the bytes of the strings. */
module Scrub {
  import opened Texts
  import opened StableSort

  const MARKER := "[redacted]"
  const SHORTEST := 8

  /** `str::replace` of a non-empty text by the marker: leftmost matches, never overlapping. */
  function Replace(text: string, t: string): string
    requires t != ""
    decreases |text|
  {
    if |text| < |t| then text
    else if t <= text then MARKER + Replace(text[|t|..], t)
    else [text[0]] + Replace(text[1..], t)
  }

  function ReplaceOne(text: string, t: string): string {
    if |t| < SHORTEST then text else Replace(text, t)
  }

  function ReplaceAll(text: string, ordered: seq<string>): string {
    if ordered == [] then text
    else ReplaceOne(ReplaceAll(text, ordered[..|ordered| - 1]), ordered[|ordered| - 1])
  }

  function NegatedLength(s: string): int {
    -|s|
  }

  function LongestFirst(secrets: seq<string>): seq<string> {
    Sort(ByRank(NegatedLength), secrets)
  }

  /** What the loop leaves of the text, before the pattern-based pass that follows it. */
  function Scrubbed(text: string, secrets: seq<string>): string {
    ReplaceAll(text, LongestFirst(secrets))
  }

  method ScrubLoop(text: string, secrets: seq<string>) returns (out: string)
    ensures out == Scrubbed(text, secrets)
  {
    out := text;
    var ordered := LongestFirst(secrets);
    for k := 0 to |ordered|
      invariant out == ReplaceAll(text, ordered[..k])
    {
      assert ordered[..k + 1] == ordered[..k] + [ordered[k]];
      ReplaceAllSnoc(text, ordered[..k], ordered[k]);
      if |ordered[k]| < SHORTEST {
        continue;
      }
      out := Replace(out, ordered[k]);
    }
    assert ordered[..|ordered|] == ordered;
  }

  lemma ReplaceAllSnoc(text: string, front: seq<string>, t: string)
    ensures ReplaceAll(text, front + [t]) == ReplaceOne(ReplaceAll(text, front), t)
  {
    assert (front + [t])[..|front|] == front;
  }

  function MarkerEnd(k: nat): string
    requires k <= |MARKER|
  {
    MARKER[|MARKER| - k..]
  }

  function MarkerStart(k: nat): string
    requires k <= |MARKER|
  {
    MARKER[..k]
  }

  ghost predicate BeginsAsMarkerEnds(t: string) {
    exists k :: 0 < k < |MARKER| && k < |t| && MarkerEnd(k) == t[..k]
  }

  ghost predicate EndsAsMarkerBegins(t: string) {
    exists k :: 0 < k < |MARKER| && k < |t| && MarkerStart(k) == t[|t| - k..]
  }

  /** An occurrence of `t` and one of the marker never share a character: neither contains the
      other, and neither ends the way the other begins. */
  ghost predicate Apart(t: string) {
    && t != ""
    && !Contains(MARKER, t)
    && !Contains(t, MARKER)
    && !BeginsAsMarkerEnds(t)
    && !EndsAsMarkerBegins(t)
  }

  /** Where an occurrence meets the marker in `a + MARKER + b`, character by character. */
  lemma MeetsMarker(a: string, b: string, t: string, i: int, j: int)
    requires At(a + MARKER + b, t, i) && 0 <= j < |t| && |a| <= i + j < |a| + |MARKER|
    ensures t[j] == MARKER[i + j - |a|]
  {
    var s := a + MARKER + b;
    assert s[i..i + |t|][j] == s[i + j];
  }

  lemma MeetsFront(a: string, b: string, t: string, i: int, j: int)
    requires At(a + MARKER + b, t, i) && 0 <= j < |t| && i + j < |a|
    ensures t[j] == a[i + j]
  {
    var s := a + MARKER + b;
    assert s[i..i + |t|][j] == s[i + j];
  }

  lemma MeetsBack(a: string, b: string, t: string, i: int, j: int)
    requires At(a + MARKER + b, t, i) && 0 <= j < |t| && |a| + |MARKER| <= i + j
    ensures t[j] == b[i + j - |a| - |MARKER|]
  {
    var s := a + MARKER + b;
    assert s[i..i + |t|][j] == s[i + j];
  }

  lemma InFront(a: string, b: string, t: string, i: int)
    requires At(a + MARKER + b, t, i) && i + |t| <= |a|
    ensures Contains(a, t)
  {
    forall j | 0 <= j < |t| ensures a[i..i + |t|][j] == t[j] {
      MeetsFront(a, b, t, i, j);
    }
    assert At(a, t, i);
  }

  lemma Behind(a: string, b: string, t: string, i: int)
    requires At(a + MARKER + b, t, i) && |a| + |MARKER| <= i
    ensures Contains(b, t)
  {
    var k := i - |a| - |MARKER|;
    forall j | 0 <= j < |t| ensures b[k..k + |t|][j] == t[j] {
      MeetsBack(a, b, t, i, j);
    }
    assert At(b, t, k);
  }

  lemma InsideMarker(a: string, b: string, t: string, i: int)
    requires |a| <= i && i + |t| <= |a| + |MARKER| && At(a + MARKER + b, t, i)
    ensures Contains(MARKER, t)
  {
    var k := i - |a|;
    forall j | 0 <= j < |t| ensures MARKER[k..k + |t|][j] == t[j] {
      MeetsMarker(a, b, t, i, j);
    }
    assert At(MARKER, t, k);
  }

  lemma AcrossMarker(a: string, b: string, t: string, i: int)
    requires i <= |a| && |a| + |MARKER| <= i + |t| && At(a + MARKER + b, t, i)
    ensures Contains(t, MARKER)
  {
    var k := |a| - i;
    forall j | 0 <= j < |MARKER| ensures t[k..k + |MARKER|][j] == MARKER[j] {
      MeetsMarker(a, b, t, i, k + j);
    }
    assert At(t, MARKER, k);
  }

  lemma AcrossMarkerEnd(a: string, b: string, t: string, i: int)
    requires |a| < i < |a| + |MARKER| < i + |t| && At(a + MARKER + b, t, i)
    ensures BeginsAsMarkerEnds(t)
  {
    var k := |a| + |MARKER| - i;
    forall j | 0 <= j < k ensures MarkerEnd(k)[j] == t[..k][j] {
      MeetsMarker(a, b, t, i, j);
    }
    assert MarkerEnd(k) == t[..k];
  }

  /** `t` ends as the marker begins, and `a` ends with the rest of it. */
  predicate Continues(a: string, t: string, k: nat) {
    && 0 < k < |MARKER| && k < |t| && MarkerStart(k) == t[|t| - k..]
    && |t| - k <= |a| && a[|a| - (|t| - k)..] == t[..|t| - k]
  }

  lemma ContinuesEnds(a: string, t: string, k: nat)
    requires Continues(a, t, k)
    ensures EndsAsMarkerBegins(t)
  {
    assert MarkerStart(k) == t[|t| - k..];
  }

  lemma AcrossMarkerStart(a: string, b: string, t: string, i: int)
    requires i < |a| < i + |t| < |a| + |MARKER| && At(a + MARKER + b, t, i)
    ensures Continues(a, t, i + |t| - |a|)
  {
    var k := i + |t| - |a|;
    forall j | 0 <= j < k ensures MarkerStart(k)[j] == t[|t| - k..][j] {
      MeetsMarker(a, b, t, i, |t| - k + j);
    }
    assert MarkerStart(k) == t[|t| - k..];
    forall j | 0 <= j < |t| - k ensures a[i..][j] == t[..|t| - k][j] {
      MeetsFront(a, b, t, i, j);
    }
    assert a[i..] == t[..|t| - k];
  }

  /** An occurrence around a marker lies wholly on one side of it, or begins before it and ends in
      it. */
  lemma AroundMarker(a: string, b: string, t: string)
    requires t != "" && !Contains(MARKER, t) && !Contains(t, MARKER) && !BeginsAsMarkerEnds(t)
    requires Contains(a + MARKER + b, t)
    ensures Contains(a, t) || Contains(b, t) || exists k: nat :: Continues(a, t, k)
  {
    var i :| 0 <= i <= |a + MARKER + b| - |t| && At(a + MARKER + b, t, i);
    var j := i + |t|;
    hide At, Contains, BeginsAsMarkerEnds, Continues;
    if j <= |a| {
      InFront(a, b, t, i);
    } else if |a| + |MARKER| <= i {
      Behind(a, b, t, i);
    } else if |a| <= i && j <= |a| + |MARKER| {
      InsideMarker(a, b, t, i);
    } else if i <= |a| && |a| + |MARKER| <= j {
      AcrossMarker(a, b, t, i);
    } else if |a| < i {
      AcrossMarkerEnd(a, b, t, i);
    } else {
      AcrossMarkerStart(a, b, t, i);
    }
  }

  /** Apart from the marker, an occurrence lies wholly on one side of it. */
  lemma BesideMarker(a: string, b: string, t: string)
    requires Apart(t)
    requires Contains(a + MARKER + b, t)
    ensures Contains(a, t) || Contains(b, t)
  {
    hide Contains, BeginsAsMarkerEnds;
    AroundMarker(a, b, t);
    if k: nat :| Continues(a, t, k) {
      ContinuesEnds(a, t, k);
    }
  }

  lemma ReplaceMatch(p: string, text: string, t: string)
    requires t != "" && t <= text
    ensures p + Replace(text, t) == p + MARKER + Replace(text[|t|..], t)
    ensures p + text == (p + t) + text[|t|..]
  {
    var rest := text[|t|..];
    var done := Replace(rest, t);
    assert Replace(text, t) == MARKER + done && text == t + rest;
    hide Replace;
    Regroup(p, MARKER, done);
    Regroup(p, t, rest);
  }

  lemma ReplaceStep(p: string, text: string, t: string)
    requires t != "" && |t| <= |text| && !(t <= text)
    ensures p + Replace(text, t) == (p + [text[0]]) + Replace(text[1..], t)
    ensures p + text == (p + [text[0]]) + text[1..]
  {
    var h, rest := [text[0]], text[1..];
    var done := Replace(rest, t);
    assert Replace(text, t) == h + done && text == h + rest;
    hide Replace;
    Regroup(p, h, done);
    Regroup(p, h, rest);
  }

  lemma Regroup(a: string, b: string, c: string)
    ensures a + (b + c) == (a + b) + c
  {
  }

  /** Replacing one text never brings another one about: what is there afterwards was there before.
      `p` is what stands in front. */
  lemma {:induction false} ReplaceAddsNone(p: string, text: string, t: string, u: string)
    requires t != "" && Apart(u)
    requires Contains(p + Replace(text, t), u)
    ensures Contains(p + text, u)
    decreases |text|
  {
    hide Contains, Apart;
    if |text| < |t| {
    } else if t <= text {
      var rest := text[|t|..];
      var done := Replace(rest, t);
      ReplaceMatch(p, text, t);
      BesideMarker(p, done, u);
      if Contains(p, u) {
        ContainsInFront(p, text, u);
      } else {
        assert "" + done == done && "" + rest == rest;
        ReplaceAddsNone("", rest, t, u);
        ContainsBehind(p + t, rest, u);
      }
    } else {
      ReplaceStep(p, text, t);
      ReplaceAddsNone(p + [text[0]], text[1..], t, u);
    }
  }

  lemma NotAtTheGap(p: string, text: string, t: string)
    requires |t| <= |text| && !(t <= text)
    ensures !At(p + text, t, |p|)
  {
    assert (p + text)[|p|..|p| + |t|] == text[..|t|];
  }

  ghost predicate NoneBefore(s: string, t: string, n: nat) {
    forall i :: 0 <= i < n ==> !At(s, t, i)
  }

  /** `t` ends as the marker begins, and directly behind the rest of itself it is found whole: the
      first match in that text begins with the second part. */
  ghost predicate EndsBeforeMarker(t: string, k: nat) {
    && 0 < k < |MARKER| && k < |t| && MarkerStart(k) == t[|t| - k..]
    && NoneBefore(t[..|t| - k] + t, t, |t| - k)
  }

  /** What keeps a text from being put together by its own replacement. */
  ghost predicate Clean(t: string) {
    && t != ""
    && !Contains(MARKER, t)
    && !Contains(t, MARKER)
    && !BeginsAsMarkerEnds(t)
    && forall k: nat :: !EndsBeforeMarker(t, k)
  }

  lemma EndsBeforeIsEnds(t: string, k: nat)
    requires EndsBeforeMarker(t, k)
    ensures EndsAsMarkerBegins(t)
  {
    assert MarkerStart(k) == t[|t| - k..];
  }

  lemma ApartIsClean(t: string)
    requires Apart(t)
    ensures Clean(t)
  {
    hide Contains, BeginsAsMarkerEnds, NoneBefore;
    forall k: nat ensures !EndsBeforeMarker(t, k) {
      if EndsBeforeMarker(t, k) {
        EndsBeforeIsEnds(t, k);
      }
    }
  }

  lemma AtShifted(a: string, s: string, b: string, t: string, i: int)
    requires At(s, t, i)
    ensures At(a + s + b, t, |a| + i)
  {
    assert (a + s + b)[|a| + i..|a| + i + |t|] == s[i..i + |t|];
  }

  /** A match with the rest of `t` in front of it was not the first one. */
  lemma EarlierMatch(p: string, rest: string, t: string, k: nat)
    requires Clean(t) && Continues(p, t, k)
    ensures exists i :: 0 <= i < |p| && At(p + t + rest, t, i)
  {
    var c := t[..|t| - k];
    var p0 := p[..|p| - |c|];
    assert p == p0 + c;
    assert !EndsBeforeMarker(t, k);
    var i :| 0 <= i < |c| && At(c + t, t, i);
    hide At;
    AtShifted(p0, c + t, rest, t, i);
    Regroup(p0, c, t);
  }

  // What a replacement leaves alone.

  /** The text between the places that are replaced. */
  function Pieces(text: string, t: string): (r: seq<string>)
    requires t != ""
    ensures r != []
    decreases |text|
  {
    if |text| < |t| then [text]
    else if t <= text then [""] + Pieces(text[|t|..], t)
    else var r := Pieces(text[1..], t); [[text[0]] + r[0]] + r[1..]
  }

  function Glued(pieces: seq<string>, glue: string): string
    requires pieces != []
  {
    if |pieces| == 1 then pieces[0] else pieces[0] + glue + Glued(pieces[1..], glue)
  }

  /** Each piece ends where the secret next occurs, and the last one does not hold it. */
  ghost predicate CutAtEach(pieces: seq<string>, t: string)
    requires pieces != []
  {
    if |pieces| == 1 then !Contains(pieces[0], t)
    else NoneBefore(pieces[0] + t, t, |pieces[0]|) && CutAtEach(pieces[1..], t)
  }

  lemma GluedCons(piece: string, rest: seq<string>, glue: string)
    requires rest != []
    ensures Glued([piece] + rest, glue) == piece + glue + Glued(rest, glue)
  {
    assert ([piece] + rest)[1..] == rest;
  }

  lemma GluedLonger(c: char, pieces: seq<string>, glue: string)
    requires pieces != []
    ensures Glued([[c] + pieces[0]] + pieces[1..], glue) == [c] + Glued(pieces, glue)
  {
    var first, rest := pieces[0], pieces[1..];
    if |pieces| > 1 {
      GluedCons([c] + first, rest, glue);
      hide Glued;
      Regroup([c], first, glue);
      Regroup([c], first + glue, Glued(rest, glue));
    } else {
      assert [[c] + first] + rest == [[c] + first];
    }
  }

  /** A replacement puts the marker exactly where the secret stands, occurrence by occurrence from the
      left, and leaves all text between as it is. */
  lemma {:induction false} ReplaceBetweenPieces(text: string, t: string)
    requires t != ""
    ensures Glued(Pieces(text, t), t) == text
    ensures Glued(Pieces(text, t), MARKER) == Replace(text, t)
    decreases |text|
  {
    hide Glued;
    if |text| < |t| {
      GluedOne(text, t);
      GluedOne(text, MARKER);
    } else if t <= text {
      ReplaceBetweenPieces(text[|t|..], t);
      PiecesBehind(text, t);
    } else {
      ReplaceBetweenPieces(text[1..], t);
      hide Replace;
      ReplaceLater(text, t);
      GluedLonger(text[0], Pieces(text[1..], t), t);
      GluedLonger(text[0], Pieces(text[1..], t), MARKER);
      assert text == [text[0]] + text[1..];
    }
  }

  lemma GluedOne(piece: string, glue: string)
    ensures Glued([piece], glue) == piece
  {
  }

  lemma ReplaceLater(text: string, t: string)
    requires t != "" && |t| <= |text| && !(t <= text)
    ensures Replace(text, t) == [text[0]] + Replace(text[1..], t)
  {
  }

  lemma PiecesBehind(text: string, t: string)
    requires t != "" && t <= text
    requires Glued(Pieces(text[|t|..], t), t) == text[|t|..]
    requires Glued(Pieces(text[|t|..], t), MARKER) == Replace(text[|t|..], t)
    ensures Glued(Pieces(text, t), t) == text
    ensures Glued(Pieces(text, t), MARKER) == Replace(text, t)
  {
    var behind := text[|t|..];
    var rest := Pieces(behind, t);
    assert Pieces(text, t) == [""] + rest && Replace(text, t) == MARKER + Replace(behind, t);
    assert text == t + behind;
    hide Replace, Pieces;
    GluedEmpty(rest, t);
    GluedEmpty(rest, MARKER);
  }

  lemma GluedEmpty(rest: seq<string>, glue: string)
    requires rest != []
    ensures Glued([""] + rest, glue) == glue + Glued(rest, glue)
  {
    GluedCons("", rest, glue);
    hide Glued;
    assert "" + glue == glue;
  }

  lemma {:induction false} PiecesAreCut(text: string, t: string)
    requires t != ""
    ensures CutAtEach(Pieces(text, t), t)
    decreases |text|
  {
    if |text| < |t| {
    } else if t <= text {
      PiecesAreCut(text[|t|..], t);
      assert ([""] + Pieces(text[|t|..], t))[1..] == Pieces(text[|t|..], t);
    } else {
      PiecesAreCut(text[1..], t);
      ReplaceBetweenPieces(text[1..], t);
      CutLonger(text, t);
    }
  }

  lemma AtBehindOne(c: char, s: string, t: string, i: nat)
    ensures At([c] + s, t, i + 1) <==> At(s, t, i)
  {
    if i + |t| <= |s| {
      assert ([c] + s)[i + 1..i + 1 + |t|] == s[i..i + |t|];
    }
  }

  lemma NoneInLonger(c: char, s: string, t: string)
    requires !Contains(s, t) && !At([c] + s, t, 0)
    ensures !Contains([c] + s, t)
  {
    hide At;
    forall i | 0 <= i <= |s| + 1 - |t| ensures !At([c] + s, t, i) {
      if i > 0 {
        AtBehindOne(c, s, t, i - 1);
      }
    }
  }

  lemma NoneBeforeInLonger(c: char, s: string, t: string, n: nat)
    requires NoneBefore(s, t, n) && !At([c] + s, t, 0)
    ensures NoneBefore([c] + s, t, n + 1)
  {
    hide At;
    forall i | 0 <= i < n + 1 ensures !At([c] + s, t, i) {
      if i > 0 {
        AtBehindOne(c, s, t, i - 1);
      }
    }
  }

  lemma NotAtItsFront(text: string, s: string, t: string)
    requires s <= text && !(t <= text)
    ensures !At(s, t, 0)
  {
  }

  lemma FirstLonger(c: char, piece: string, behind: string, t: string, text: string)
    requires NoneBefore(piece + t, t, |piece|) && text == [c] + (piece + t + behind) && !(t <= text)
    ensures NoneBefore([c] + piece + t, t, |[c] + piece|)
  {
    hide At, NoneBefore;
    var s := piece + t;
    assert [c] + s <= text;
    NotAtItsFront(text, [c] + s, t);
    NoneBeforeInLonger(c, s, t, |piece|);
    Regroup([c], piece, t);
  }

  lemma CutCons(piece: string, rest: seq<string>, t: string)
    requires rest != [] && NoneBefore(piece + t, t, |piece|) && CutAtEach(rest, t)
    ensures CutAtEach([piece] + rest, t)
  {
    hide NoneBefore;
    assert ([piece] + rest)[1..] == rest;
  }

  lemma CutLonger(text: string, t: string)
    requires t != "" && |t| <= |text| && !(t <= text)
    requires CutAtEach(Pieces(text[1..], t), t) && Glued(Pieces(text[1..], t), t) == text[1..]
    ensures CutAtEach(Pieces(text, t), t)
  {
    hide Pieces, Glued, CutAtEach;
    PiecesLater(text, t);
    CutStep(text[0], Pieces(text[1..], t), text[1..], text, t);
  }

  lemma PiecesLater(text: string, t: string)
    requires t != "" && |t| <= |text| && !(t <= text)
    ensures Pieces(text, t) == [[text[0]] + Pieces(text[1..], t)[0]] + Pieces(text[1..], t)[1..]
    ensures text == [text[0]] + text[1..]
  {
  }

  lemma CutStep(c: char, r: seq<string>, behind: string, text: string, t: string)
    requires r != [] && CutAtEach(r, t) && Glued(r, t) == behind
    requires text == [c] + behind && !(t <= text)
    ensures CutAtEach([[c] + r[0]] + r[1..], t)
  {
    hide At, Contains, NoneBefore;
    var piece, rest := r[0], r[1..];
    if |r| == 1 {
      NotAtItsFront(text, [c] + piece, t);
      NoneInLonger(c, piece, t);
    } else {
      assert behind == piece + t + Glued(rest, t) && CutAtEach(rest, t) && NoneBefore(piece + t, t, |piece|);
      hide Glued, CutAtEach;
      FirstLonger(c, piece, Glued(rest, t), t, text);
      CutCons([c] + piece, rest, t);
    }
  }

  /** An occurrence that begins inside the first `n` characters. */
  ghost predicate BeginsWithin(s: string, t: string, n: nat) {
    exists i :: 0 <= i < n && At(s, t, i)
  }

  lemma WithinShort(p: string, text: string, t: string)
    requires |text| < |t| && Contains(p + text, t)
    ensures BeginsWithin(p + text, t, |p|)
  {
    var i :| 0 <= i <= |p + text| - |t| && At(p + text, t, i);
  }

  /** What is found around a marker that has taken the place of `t` was found in front of it. */
  lemma WithinFront(p: string, rest: string, done: string, t: string)
    requires Clean(t) && Contains(p + MARKER + done, t) && !Contains(done, t)
    ensures BeginsWithin(p + t + rest, t, |p|)
  {
    hide Contains, BeginsAsMarkerEnds, EndsBeforeMarker, Continues, At;
    AroundMarker(p, done, t);
    if Contains(p, t) {
      OccurrenceInFront(p, t + rest, t);
      Regroup(p, t, rest);
    } else {
      var k: nat :| Continues(p, t, k);
      EarlierMatch(p, rest, t, k);
    }
  }

  lemma WithinStep(p: string, text: string, t: string)
    requires text != "" && |t| <= |text| && !(t <= text)
    requires BeginsWithin(p + text, t, |p| + 1)
    ensures BeginsWithin(p + text, t, |p|)
  {
    NotAtTheGap(p, text, t);
  }

  lemma NothingWithin(s: string, t: string)
    ensures !BeginsWithin(s, t, 0)
  {
  }

  /** Replacing a text leaves no occurrence of it, but for one that begins in front of where the
      replacing began. */
  lemma {:induction false} ReplaceRemoves(p: string, text: string, t: string)
    requires Clean(t)
    requires Contains(p + Replace(text, t), t)
    ensures BeginsWithin(p + text, t, |p|)
    decreases |text|
  {
    assert t != "";
    hide Contains, Clean, BeginsWithin;
    if |text| < |t| {
      WithinShort(p, text, t);
    } else if t <= text {
      var rest := text[|t|..];
      var done := Replace(rest, t);
      ReplaceMatch(p, text, t);
      assert "" + done == done && "" + rest == rest;
      if Contains(done, t) {
        ReplaceRemoves("", rest, t);
        NothingWithin(rest, t);
      } else {
        WithinFront(p, rest, done, t);
      }
    } else {
      ReplaceStep(p, text, t);
      ReplaceRemoves(p + [text[0]], text[1..], t);
      WithinStep(p, text, t);
    }
  }

  lemma ReplacedIsGone(text: string, t: string)
    requires Clean(t)
    ensures !Contains(Replace(text, t), t)
  {
    assert "" + Replace(text, t) == Replace(text, t);
    if Contains(Replace(text, t), t) {
      ReplaceRemoves("", text, t);
    }
  }

  lemma ReplacedAddsNone(text: string, t: string, u: string)
    requires t != "" && Apart(u) && !Contains(text, u)
    ensures !Contains(Replace(text, t), u)
  {
    assert "" + Replace(text, t) == Replace(text, t) && "" + text == text;
    if Contains(Replace(text, t), u) {
      ReplaceAddsNone("", text, t, u);
    }
  }

  /** Only a text that contains `t` is changed. */
  lemma {:induction false} ReplaceFinds(text: string, t: string)
    requires t != "" && Replace(text, t) != text
    ensures Contains(text, t)
    decreases |text|
  {
    if t <= text {
      assert At(text, t, 0);
    } else {
      hide Contains;
      ReplaceFinds(text[1..], t);
      ContainsBehind([text[0]], text[1..], t);
      assert [text[0]] + text[1..] == text;
    }
  }

  lemma {:induction false} AllAbsent(text: string, ordered: seq<string>, u: string)
    requires Apart(u) && |u| >= SHORTEST
    requires u in ordered || !Contains(text, u)
    ensures !Contains(ReplaceAll(text, ordered), u)
    decreases |ordered|
  {
    if ordered != [] {
      var front, t := ordered[..|ordered| - 1], ordered[|ordered| - 1];
      var before := ReplaceAll(text, front);
      assert ordered == front + [t];
      hide Contains, Apart, Replace;
      if t == u {
        ApartIsClean(u);
        ReplacedIsGone(before, u);
      } else {
        AllAbsent(text, front, u);
        if |t| >= SHORTEST {
          ReplacedAddsNone(before, t, u);
        }
      }
    }
  }

  /** No secret of eight characters or more is left in the text, whatever the text, however often
      the secrets occur and however they nest in each other, as long as the secret itself and the
      marker cannot overlap. */
  lemma NoSecretSurvives(text: string, secrets: seq<string>, u: string)
    requires u in secrets && |u| >= SHORTEST && Apart(u)
    ensures !Contains(Scrubbed(text, secrets), u)
  {
    SortPermutes(ByRank(NegatedLength), secrets);
    AllAbsent(text, LongestFirst(secrets), u);
  }

  lemma {:induction false} CleanTextStays(text: string, ordered: seq<string>)
    requires forall t :: t in ordered && |t| >= SHORTEST ==> !Contains(text, t)
    ensures ReplaceAll(text, ordered) == text
    decreases |ordered|
  {
    if ordered != [] {
      var front, t := ordered[..|ordered| - 1], ordered[|ordered| - 1];
      assert ordered == front + [t];
      CleanTextStays(text, front);
      if |t| >= SHORTEST && Replace(text, t) != text {
        ReplaceFinds(text, t);
      }
    }
  }

  /** The loop changes a text exactly when it holds a secret long enough to be looked for. */
  lemma ChangesOnlySecrets(text: string, secrets: seq<string>)
    requires forall t :: t in secrets && |t| >= 8 ==> Apart(t)
    ensures Scrubbed(text, secrets) == text
       <==> forall t :: t in secrets && |t| >= 8 ==> !Contains(text, t)
  {
    SortPermutes(ByRank(NegatedLength), secrets);
    if t :| t in secrets && |t| >= SHORTEST && Contains(text, t) {
      NoSecretSurvives(text, secrets, t);
    } else {
      CleanTextStays(text, LongestFirst(secrets));
    }
  }

  // Why the longest goes first.

  lemma ReplaceWhole(s: string)
    requires s != ""
    ensures Replace(s, s) == MARKER
  {
    assert s[|s|..] == "";
    assert Replace("", s) == "";
  }

  ghost predicate LengthsFall(ordered: seq<string>) {
    forall i, j :: 0 <= i < j < |ordered| ==> |ordered[i]| >= |ordered[j]|
  }

  lemma LongestFirstFalls(secrets: seq<string>)
    ensures LengthsFall(LongestFirst(secrets))
  {
    var le, ordered := ByRank(NegatedLength), LongestFirst(secrets);
    SortSorted(le, secrets);
    forall i, j | 0 <= i < j < |ordered| ensures |ordered[i]| >= |ordered[j]| {
      assert le(ordered[i], ordered[j]);
      assert NegatedLength(ordered[i]) <= NegatedLength(ordered[j]);
    }
  }

  /** Before its turn comes, a secret is left alone by the longer ones; after it, there is nothing
      left but the marker. */
  lemma {:induction false} WholeSecret(ordered: seq<string>, s: string)
    requires LengthsFall(ordered) && |s| >= SHORTEST
    requires forall t :: t in ordered && |t| >= SHORTEST ==> !Contains(MARKER, t)
    ensures s in ordered ==> ReplaceAll(s, ordered) == MARKER
    ensures s !in ordered && (forall t :: t in ordered ==> |t| >= |s|) ==> ReplaceAll(s, ordered) == s
    decreases |ordered|
  {
    if ordered != [] {
      hide Contains, Replace;
      var front, t := ordered[..|ordered| - 1], ordered[|ordered| - 1];
      assert ordered == front + [t];
      WholeSecret(front, s);
      if s in front {
        if |t| >= SHORTEST && Replace(MARKER, t) != MARKER {
          ReplaceFinds(MARKER, t);
        }
      } else {
        assert forall u :: u in front ==> |u| >= |t|;
        if s == t {
          ReplaceWhole(s);
        } else if |t| >= |s| && Replace(s, t) != s {
          ReplaceFinds(s, t);
          LongEnough(s, t);
        }
      }
    }
  }

  /** A secret on its own becomes the bare marker, even when shorter secrets are part of it: nothing
      of it is left around the marker. */
  lemma WholeSecretIsReplaced(secrets: seq<string>, s: string)
    requires s in secrets && |s| >= SHORTEST
    requires forall t :: t in secrets && |t| >= SHORTEST ==> Apart(t)
    ensures Scrubbed(s, secrets) == MARKER
  {
    SortPermutes(ByRank(NegatedLength), secrets);
    LongestFirstFalls(secrets);
    WholeSecret(LongestFirst(secrets), s);
  }

  lemma {:induction false} ShortResult(text: string, t: string)
    requires t != "" && |Replace(text, t)| < |MARKER|
    ensures Replace(text, t) == text
    decreases |text|
  {
    if |text| >= |t| && !(t <= text) {
      ShortResult(text[1..], t);
    }
  }

  /** Only the text itself is replaced by the bare marker. */
  lemma BareMarker(text: string, t: string)
    requires t != "" && Replace(text, t) == MARKER
    ensures text == t || text == MARKER
  {
    if |text| < |t| {
    } else if t <= text {
      var rest := text[|t|..];
      assert |MARKER + Replace(rest, t)| == |MARKER|;
      assert rest == "";
    } else {
      ShortResult(text[1..], t);
    }
  }

  /** In the other order, whenever one secret is part of another, the longer one is not recognised
      any more and what surrounds the shorter one stays in the text. */
  lemma ShortestFirstLeavesTheRest(s: string, t: string)
    requires |t| >= SHORTEST && Apart(t) && Apart(s) && Contains(s, t) && s != t
    ensures ReplaceAll(s, [t, s]) == Replace(s, t) != MARKER
  {
    hide Contains, Replace;
    var first := Replace(s, t);
    LongEnough(s, t);
    assert [t, s] == [t] + [s] && [t] == [] + [t];
    ReplaceAllSnoc(s, [], t);
    ReplaceAllSnoc(s, [t], s);
    assert ReplaceAll(s, []) == s;
    ApartIsClean(t);
    ReplacedIsGone(s, t);
    if Replace(first, s) != first {
      ReplaceFinds(first, s);
      ContainsTransitive(first, s, t);
    }
    if first == MARKER {
      BareMarker(s, t);
    }
  }

  // When the marker gets in the way.

  lemma {:induction false} ReplaceBehind(g: string, text: string, t: string)
    requires t != "" && NoneBefore(g + text, t, |g|)
    ensures Replace(g + text, t) == g + Replace(text, t)
    decreases |g|
  {
    if g == "" {
      assert g + text == text && g + Replace(text, t) == Replace(text, t);
    } else {
      var h, rest := [g[0]], g[1..];
      assert g == h + rest;
      Regroup(h, rest, text);
      NoneInRest(g[0], rest + text, t, |rest|);
      ReplaceBehind(rest, text, t);
      NotAtFront(g[0], rest + text, t);
      hide Replace;
      Regroup(h, rest, Replace(text, t));
    }
  }

  lemma AtBehind(h: char, s: string, t: string, i: int)
    requires At(s, t, i)
    ensures At([h] + s, t, i + 1)
  {
    assert ([h] + s)[i + 1..i + 1 + |t|] == s[i..i + |t|];
  }

  lemma NoneInRest(h: char, s: string, t: string, n: nat)
    requires NoneBefore([h] + s, t, n + 1)
    ensures NoneBefore(s, t, n)
  {
    forall i | 0 <= i < n ensures !At(s, t, i) {
      if At(s, t, i) {
        AtBehind(h, s, t, i);
      }
    }
  }

  lemma NotAtFront(h: char, s: string, t: string)
    requires t != "" && !At([h] + s, t, 0)
    ensures Replace([h] + s, t) == [h] + Replace(s, t)
  {
    assert ([h] + s)[1..] == s;
  }

  /** A text found in the replaced text, for each way the marker can spell it. */
  ghost predicate Leaks(s: string) {
    exists text :: Contains(Scrubbed(text, [s]), s)
  }

  lemma LeaksFrom(text: string, out: string, s: string)
    requires |s| >= SHORTEST && Replace(text, s) == out && Contains(out, s)
    ensures Leaks(s)
  {
    OnlySecret(text, s);
  }

  lemma PartOfMarkerLeaks(s: string)
    requires |s| >= SHORTEST && Contains(MARKER, s)
    ensures Leaks(s)
  {
    ReplaceWhole(s);
    LeaksFrom(s, MARKER, s);
  }

  lemma MarkerEndLeaks(s: string, k: nat)
    requires |s| >= SHORTEST
    requires 0 < k < |MARKER| && k < |s| && MarkerEnd(k) == s[..k]
    ensures Leaks(s)
  {
    var front, v := MarkerStart(|MARKER| - k), s[k..];
    ReplaceAhead(s, v);
    assert MARKER == front + MarkerEnd(k);
    assert s == MarkerEnd(k) + v;
    Regroup(front, MarkerEnd(k), v);
    ContainsItself(s);
    hide Replace, Contains, MarkerEnd, MarkerStart;
    ContainsBehind(front, s, s);
    LeaksFrom(s + v, MARKER + v, s);
  }

  lemma ContainsItself(s: string)
    ensures Contains(s, s)
  {
    assert At(s, s, 0);
  }

  /** What follows a match and is too short for another one stays. */
  lemma ReplaceAhead(s: string, b: string)
    requires |b| < |s|
    ensures Replace(s + b, s) == MARKER + b
  {
    assert (s + b)[|s|..] == b && s <= s + b;
  }

  lemma MarkerStartLeaks(s: string, k: nat)
    requires |s| >= SHORTEST && EndsBeforeMarker(s, k)
    ensures Leaks(s)
  {
    var c := s[..|s| - k];
    ReplaceBehind(c, s, s);
    ReplaceWhole(s);
    assert MARKER == MarkerStart(k) + MARKER[k..];
    assert s == c + MarkerStart(k);
    assert c + MARKER == "" + s + MARKER[k..];
    ContainsMiddle("", s, MARKER[k..]);
    LeaksFrom(c + s, c + MARKER, s);
  }

  lemma FirstOccurrence(s: string, t: string) returns (i: nat)
    requires Contains(s, t)
    ensures i <= |s| - |t| && At(s, t, i) && NoneBefore(s, t, i)
  {
    var k :| 0 <= k <= |s| - |t| && At(s, t, k);
    i := k;
    while !NoneBefore(s, t, i)
      invariant 0 <= i <= |s| - |t| && At(s, t, i)
      decreases i
    {
      var j :| 0 <= j < i && At(s, t, j);
      i := j;
    }
  }

  /** An occurrence of `s` in `c + s + b` before its second part would show an earlier marker in
      `s`. */
  lemma NoEarlierMatch(s: string, c: string, b: string, i: int)
    requires s == c + MARKER + b && NoneBefore(s, MARKER, |c|) && 0 <= i < |c|
    ensures !At(c + s + b, s, i)
  {
    var text := c + s + b;
    if At(text, s, i) {
      forall j | 0 <= j < |MARKER| ensures s[i..i + |MARKER|][j] == MARKER[j] {
        assert text[i..i + |s|][|c| + j] == s[|c| + j] == MARKER[j];
        assert text[i + |c| + j] == s[i + j];
      }
      assert At(s, MARKER, i);
    }
  }

  lemma MarkerInsideLeaks(s: string)
    requires |s| >= SHORTEST && Contains(s, MARKER)
    ensures Leaks(s)
  {
    var n := FirstOccurrence(s, MARKER);
    var c, b := s[..n], s[n + |MARKER|..];
    assert s == c + MARKER + b;
    MarkerWithinLeaks(s, c, b);
  }

  lemma MarkerWithinLeaks(s: string, c: string, b: string)
    requires |s| >= SHORTEST && s == c + MARKER + b && NoneBefore(s, MARKER, |c|)
    ensures Leaks(s)
  {
    hide Replace, Contains, At;
    Regroup(c, s, b);
    forall i | 0 <= i < |c| ensures !At(c + (s + b), s, i) {
      NoEarlierMatch(s, c, b, i);
    }
    ReplaceBehind(c, s + b, s);
    ReplaceAhead(s, b);
    Regroup(c, MARKER, b);
    ContainsItself(s);
    LeaksFrom(c + (s + b), s, s);
  }

  /** The loop with one secret removes it from every text exactly when the secret is clean: it is
      not part of the marker, the marker is not part of it, it does not begin as the marker ends,
      and if it ends as the marker begins, it is found earlier where its own rest stands in front of
      it. */
  lemma MarkerCanSpellASecret(s: string)
    requires |s| >= SHORTEST
    ensures Leaks(s) <==> !Clean(s)
  {
    if Clean(s) {
      forall text ensures !Contains(Scrubbed(text, [s]), s) {
        OnlySecret(text, s);
        ReplacedIsGone(text, s);
      }
    } else if Contains(MARKER, s) {
      PartOfMarkerLeaks(s);
    } else if Contains(s, MARKER) {
      MarkerInsideLeaks(s);
    } else if BeginsAsMarkerEnds(s) {
      var k :| 0 < k < |MARKER| && k < |s| && MarkerEnd(k) == s[..k];
      MarkerEndLeaks(s, k);
    } else {
      var k: nat :| EndsBeforeMarker(s, k);
      MarkerStartLeaks(s, k);
    }
  }

  /** Some list with this secret leaves it in some text. */
  ghost predicate LeaksInAList(u: string) {
    exists text, secrets :: u in secrets && Contains(Scrubbed(text, secrets), u)
  }

  function Repeated(x: char, n: nat): string {
    seq(n, i => x)
  }

  /** The rest of a secret that ends as the marker begins, in front of another secret that does not
      look like it at either end. */
  lemma NothingAcross(u: string, c: string, x: char, i: nat)
    requires 0 < |c| < |u| && c[|c| - 1] != x && u[|u| - 1] != x
    ensures !At(c + Repeated(x, |u|), u, i)
    ensures i < |c| ==> !At(c + Repeated(x, |u|), Repeated(x, |u|), i)
  {
    var t := Repeated(x, |u|);
    var s := c + t;
    if i + |u| <= |s| {
      assert s[i..i + |u|][|u| - 1] == s[i + |u| - 1] == x;
      if i < |c| {
        assert s[i..i + |u|][|c| - 1 - i] == s[|c| - 1] == c[|c| - 1];
        assert t[|c| - 1 - i] == x;
      }
    }
  }

  lemma TwoOfALength(text: string, u: string, t: string)
    requires |u| == |t| >= SHORTEST
    ensures Scrubbed(text, [u, t]) == Replace(Replace(text, u), t)
  {
    var ordered := [u, t];
    assert ByRank(NegatedLength)(u, t) by {
      assert NegatedLength(u) == NegatedLength(t);
    }
    SortIdentity(ByRank(NegatedLength), ordered);
    assert ordered == [u] + [t] && [u] == [] + [u];
    ReplaceAllSnoc(text, [], u);
    ReplaceAllSnoc(text, [u], t);
    assert ReplaceAll(text, []) == text;
  }

  /** The first of two secrets of a length does not occur; the second is replaced where it stands. */
  lemma BesideAnother(u: string, c: string, x: char)
    requires |u| >= SHORTEST
    requires forall i: nat :: !At(c + Repeated(x, |u|), u, i)
                              && (i < |c| ==> !At(c + Repeated(x, |u|), Repeated(x, |u|), i))
    ensures Scrubbed(c + Repeated(x, |u|), [u, Repeated(x, |u|)]) == c + MARKER
  {
    var t := Repeated(x, |u|);
    assert !Contains(c + t, u);
    if Replace(c + t, u) != c + t {
      ReplaceFinds(c + t, u);
    }
    ReplaceBehind(c, t, t);
    ReplaceWhole(t);
    TwoOfALength(c + t, u, t);
  }

  lemma EndLeaksBesideAnother(u: string, k: nat, x: char)
    requires |u| >= SHORTEST && 0 < k < |MARKER| && k < |u| && MarkerStart(k) == u[|u| - k..]
    requires u[|u| - k - 1] != x && u[|u| - 1] != x
    ensures LeaksInAList(u)
  {
    var c, t := u[..|u| - k], Repeated(x, |u|);
    forall i: nat ensures !At(c + t, u, i) && (i < |c| ==> !At(c + t, t, i)) {
      NothingAcross(u, c, x, i);
    }
    hide Contains, MarkerStart, At, Scrubbed;
    BesideAnother(u, c, x);
    CompletedByMarker(u, k);
    assert u in [u, t];
  }

  lemma CompletedByMarker(u: string, k: nat)
    requires 0 < k < |MARKER| && k < |u| && MarkerStart(k) == u[|u| - k..]
    ensures Contains(u[..|u| - k] + MARKER, u)
  {
    var c := u[..|u| - k];
    assert u == c + MarkerStart(k) && MARKER == MarkerStart(k) + MARKER[k..];
    hide Contains, MarkerStart;
    Regroup(c, MarkerStart(k), MARKER[k..]);
    ContainsItself(u);
    ContainsInFront(u, MARKER[k..], u);
  }

  /** A secret is removed from every text whatever other secrets are looked for, exactly when it is
      apart from the marker. */
  lemma LeaksExactly(u: string)
    requires |u| >= SHORTEST
    ensures LeaksInAList(u) <==> !Apart(u)
  {
    if Apart(u) {
      forall text, secrets | u in secrets ensures !Contains(Scrubbed(text, secrets), u) {
        NoSecretSurvives(text, secrets, u);
      }
    } else if EndsAsMarkerBegins(u) {
      var k :| 0 < k < |MARKER| && k < |u| && MarkerStart(k) == u[|u| - k..];
      OneOfThree(u[|u| - k - 1], u[|u| - 1]);
      var x :| x in "abc" && u[|u| - k - 1] != x && u[|u| - 1] != x;
      EndLeaksBesideAnother(u, k, x);
    } else {
      MarkerCanSpellASecret(u);
      var text :| Contains(Scrubbed(text, [u]), u);
      assert u in [u];
    }
  }

  lemma OneOfThree(y: char, z: char)
    ensures exists x :: x in "abc" && y != x && z != x
  {
    var s := "abc";
    assert s[0] in s && s[1] in s && s[2] in s;
  }

  lemma {:induction false} LastAbsent(text: string, ordered: seq<string>, u: string)
    requires Clean(u) && |u| >= SHORTEST && u in ordered && LengthsFall(ordered)
    requires forall t :: t in ordered && |t| >= SHORTEST && t != u ==> |t| > |u|
    ensures !Contains(ReplaceAll(text, ordered), u)
    decreases |ordered|
  {
    var front, t := ordered[..|ordered| - 1], ordered[|ordered| - 1];
    assert t in ordered && forall x :: x in front ==> x in ordered;
    hide Contains, Clean, Replace, LengthsFall;
    if t == u {
      ReplacedIsGone(ReplaceAll(text, front), u);
    } else {
      LastIsShortest(ordered, u);
      LastAbsent(text, front, u);
    }
  }

  lemma LastIsShortest(ordered: seq<string>, u: string)
    requires u in ordered && LengthsFall(ordered) && ordered[|ordered| - 1] != u
    ensures |ordered[|ordered| - 1]| <= |u| && u in ordered[..|ordered| - 1] && LengthsFall(ordered[..|ordered| - 1])
  {
    var i :| 0 <= i < |ordered| && ordered[i] == u;
    assert ordered[..|ordered| - 1][i] == u;
  }

  /** For the shortest of several secrets being clean is enough: it is replaced last. */
  lemma ShortestIsRemoved(text: string, secrets: seq<string>, u: string)
    requires u in secrets && |u| >= SHORTEST && Clean(u)
    requires forall t :: t in secrets && |t| >= SHORTEST && t != u ==> |t| > |u|
    ensures !Contains(Scrubbed(text, secrets), u)
  {
    SortPermutes(ByRank(NegatedLength), secrets);
    LongestFirstFalls(secrets);
    hide Clean, Contains;
    LastAbsent(text, LongestFirst(secrets), u);
  }

  const BRACKETS := "[[[[[[[["
  const OTHER := "otherkey"

  /** A secret of opening brackets is clean: no text on its own leaks it. */
  lemma BracketsAreClean()
    ensures Clean(BRACKETS) && !Apart(BRACKETS)
  {
    var s := BRACKETS;
    assert MarkerStart(1) == s[|s| - 1..];
    BracketsMeetNothing();
    forall k: nat ensures !EndsBeforeMarker(s, k) {
      if 0 < k < |s| {
        assert (s[..|s| - k] + s)[0..|s|] == s;
        assert At(s[..|s| - k] + s, s, 0);
      }
    }
  }

  lemma BracketsMeetNothing()
    ensures !Contains(MARKER, BRACKETS) && !Contains(BRACKETS, MARKER) && !BeginsAsMarkerEnds(BRACKETS)
  {
    forall i | 0 <= i <= |MARKER| - |BRACKETS| ensures !At(MARKER, BRACKETS, i) {
      assert MARKER[i..i + |BRACKETS|][1] == MARKER[i + 1] != '[';
    }
    forall k | 0 < k < |MARKER| && k < |BRACKETS| ensures MarkerEnd(k) != BRACKETS[..k] {
      assert MarkerEnd(k)[k - 1] == ']' && BRACKETS[..k][k - 1] == '[';
    }
  }

  /** For the others it is not: the marker that takes the place of another secret, replaced later,
      can complete a secret that no text leaks on its own. */
  lemma MarkerOfAnotherSecret()
    ensures Clean(BRACKETS) && Contains(Scrubbed(BRACKETS[1..] + OTHER, [BRACKETS, OTHER]), BRACKETS)
  {
    BracketsAreClean();
    var text := BRACKETS[1..] + OTHER;
    BracketsThenOther(text);
    var out := BRACKETS[1..] + MARKER;
    assert out == "" + BRACKETS + MARKER[1..];
    ContainsMiddle("", BRACKETS, MARKER[1..]);
  }

  lemma BracketsThenOther(text: string)
    requires text == BRACKETS[1..] + OTHER
    ensures Scrubbed(text, [BRACKETS, OTHER]) == BRACKETS[1..] + MARKER
  {
    var ordered := [BRACKETS, OTHER];
    assert ByRank(NegatedLength)(BRACKETS, OTHER) by {
      assert NegatedLength(BRACKETS) == NegatedLength(OTHER);
    }
    SortIdentity(ByRank(NegatedLength), ordered);
    assert ordered == [BRACKETS] + [OTHER] && [BRACKETS] == [] + [BRACKETS];
    ReplaceAllSnoc(text, [], BRACKETS);
    ReplaceAllSnoc(text, [BRACKETS], OTHER);
    assert ReplaceAll(text, []) == text;
    NoBrackets(text);
    NoOther(BRACKETS[1..], OTHER);
    ReplaceBehind(BRACKETS[1..], OTHER, OTHER);
    ReplaceWhole(OTHER);
  }

  lemma NoBrackets(text: string)
    requires text == BRACKETS[1..] + OTHER
    ensures Replace(text, BRACKETS) == text
  {
    forall i | 0 <= i <= |text| - |BRACKETS| ensures !At(text, BRACKETS, i) {
      assert text[i..i + |BRACKETS|][7 - i] == text[7] == 'o';
    }
    if Replace(text, BRACKETS) != text {
      ReplaceFinds(text, BRACKETS);
    }
  }

  lemma NoOther(g: string, t: string)
    requires g == BRACKETS[1..] && t == OTHER
    ensures NoneBefore(g + t, t, |g|)
  {
    forall i | 0 <= i < |g| ensures !At(g + t, t, i) {
      assert (g + t)[i] == '[';
    }
  }

  lemma OnlySecret(text: string, s: string)
    requires |s| >= SHORTEST
    ensures Scrubbed(text, [s]) == Replace(text, s)
  {
    SortIdentity(ByRank(NegatedLength), [s]);
    assert [s] == [] + [s];
    ReplaceAllSnoc(text, [], s);
    assert ReplaceAll(text, []) == text;
  }
}
