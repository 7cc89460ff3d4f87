/** When two seeds count as the same: the same words, whatever their case and the space around them.
    And what the guard in front of the flat imports lets through. */
module SeedWords {
  import opened Wrappers
  import opened Seqs
  import opened Texts
  import opened Vault
  import opened Seeds

  predicate NoSpace(s: string) {
    forall i :: 0 <= i < |s| ==> !IsSpace(s[i])
  }

  predicate Blank(s: string) {
    forall i :: 0 <= i < |s| ==> IsSpace(s[i])
  }

  ghost predicate AreWords(ws: seq<string>) {
    forall i :: 0 <= i < |ws| ==> ws[i] != "" && NoSpace(ws[i])
  }

  /** White space and line terminators of ECMAScript, by code point. */
  const SPACES := {0x09, 0x0A, 0x0B, 0x0C, 0x0D, 0x20, 0xA0, 0x1680, 0x2000, 0x2001, 0x2002, 0x2003, 0x2004, 0x2005,
      0x2006, 0x2007, 0x2008, 0x2009, 0x200A, 0x2028, 0x2029, 0x202F, 0x205F, 0x3000, 0xFEFF}

  lemma SpaceExactly(c: char)
    ensures IsSpace(c) <==> c as int in SPACES
  {
  }

  // Splitting into words.

  lemma {:induction false} WordLengthIs(s: string, w: string, rest: string)
    requires s == w + rest && NoSpace(w) && (rest == "" || IsSpace(rest[0]))
    ensures WordLength(s) == |w|
  {
    if w != "" {
      assert s[1..] == w[1..] + rest && s[0] == w[0];
      WordLengthIs(s[1..], w[1..], rest);
    }
  }

  lemma {:induction false} WordIsWord(s: string)
    ensures NoSpace(s[..WordLength(s)])
    ensures WordLength(s) < |s| ==> IsSpace(s[WordLength(s)])
  {
    if s != "" && !IsSpace(s[0]) {
      WordIsWord(s[1..]);
      assert s[..WordLength(s)] == [s[0]] + s[1..][..WordLength(s[1..])];
    }
  }

  lemma WordsFirst(w: string, rest: string)
    requires w != "" && NoSpace(w) && (rest == "" || IsSpace(rest[0]))
    ensures Words(w + rest) == [w] + Words(rest)
  {
    var s := w + rest;
    WordLengthIs(s, w, rest);
    assert s[0] == w[0] && s[..|w|] == w && s[|w|..] == rest;
  }

  /** A text without space is one word, and space between two texts keeps their words apart. */
  lemma WordsOfWord(w: string)
    requires w != "" && NoSpace(w)
    ensures Words(w) == [w]
  {
    WordsFirst(w, "");
    assert w + "" == w;
  }

  lemma {:induction false} WordsApart(a: string, c: char, b: string)
    requires IsSpace(c)
    ensures Words(a + [c] + b) == Words(a) + Words(b)
    decreases |a|
  {
    var s := a + [c] + b;
    if a == "" {
      assert s[0] == c && s[1..] == b;
    } else if IsSpace(a[0]) {
      assert s[0] == a[0] && s[1..] == a[1..] + [c] + b;
      WordsApart(a[1..], c, b);
    } else {
      var n := WordLength(a);
      WordIsWord(a);
      WordsApart(a[n..], c, b);
      assert a == a[..n] + a[n..];
      WordInFront(a[..n], a[n..], c, b);
    }
  }

  lemma WordInFront(w: string, rest: string, c: char, b: string)
    requires w != "" && NoSpace(w) && (rest == "" || IsSpace(rest[0])) && IsSpace(c)
    requires Words(rest + [c] + b) == Words(rest) + Words(b)
    ensures Words(w + rest + [c] + b) == Words(w + rest) + Words(b)
  {
    hide Words, NoSpace, IsSpace;
    var tail := rest + [c] + b;
    assert tail[0] == if rest == "" then c else rest[0];
    WordsFirst(w, rest);
    WordsFirst(w, tail);
    Regroup(w, rest, c, b);
    assert [w] + (Words(rest) + Words(b)) == ([w] + Words(rest)) + Words(b);
  }

  lemma Regroup(w: string, rest: string, c: char, b: string)
    ensures w + rest + [c] + b == w + (rest + [c] + b)
  {
  }

  lemma {:induction false} WordsAreWords(s: string)
    ensures AreWords(Words(s))
    decreases |s|
  {
    if s != "" {
      if IsSpace(s[0]) {
        WordsAreWords(s[1..]);
      } else {
        WordIsWord(s);
        WordsAreWords(s[WordLength(s)..]);
      }
    }
  }

  lemma {:induction false} NoWords(s: string)
    ensures Words(s) == [] <==> Blank(s)
    decreases |s|
  {
    if s != "" && IsSpace(s[0]) {
      NoWords(s[1..]);
      assert Blank(s) <==> Blank(s[1..]) by {
        assert s == [s[0]] + s[1..];
      }
    }
  }

  // Joining them again.

  lemma {:induction false} WordsOfJoin(ws: seq<string>)
    requires AreWords(ws)
    ensures Words(Join(ws)) == ws
  {
    if |ws| == 1 {
      WordsOfWord(ws[0]);
    } else if |ws| > 1 {
      WordsOfJoin(ws[1..]);
      WordsFirst(ws[0], " " + Join(ws[1..]));
      WordsApart("", ' ', Join(ws[1..]));
      assert "" + [' '] + Join(ws[1..]) == " " + Join(ws[1..]);
      assert Join(ws) == ws[0] + (" " + Join(ws[1..]));
      assert ws == [ws[0]] + ws[1..];
    }
  }

  function LowerText(s: string): string {
    Map(Lower, s)
  }

  /** The words of a seed as they are compared. */
  function LowerWords(s: string): seq<string> {
    Map(LowerText, Words(s))
  }

  lemma {:induction false} LowerOfJoin(ws: seq<string>)
    ensures LowerText(Join(ws)) == Join(Map(LowerText, ws))
  {
    if |ws| > 1 {
      LowerOfJoin(ws[1..]);
      assert Map(LowerText, ws)[1..] == Map(LowerText, ws[1..]);
      assert Join(ws) == ws[0] + " " + Join(ws[1..]);
      LowerConcat(ws[0], " " + Join(ws[1..]));
      LowerConcat(" ", Join(ws[1..]));
      assert LowerText(" ") == " ";
      assert ws[0] + " " + Join(ws[1..]) == ws[0] + (" " + Join(ws[1..]));
    }
  }

  lemma LowerConcat(a: string, b: string)
    ensures LowerText(a + b) == LowerText(a) + LowerText(b)
  {
  }

  lemma LowerWordsAreWords(s: string)
    ensures AreWords(LowerWords(s))
  {
    WordsAreWords(s);
    forall i | 0 <= i < |Words(s)| ensures LowerWords(s)[i] != "" && NoSpace(LowerWords(s)[i]) {
      assert Words(s)[i] != "" && NoSpace(Words(s)[i]);
    }
  }

  predicate SameWords(a: string, b: string) {
    var x, y := Words(a), Words(b);
    |x| == |y| && forall i :: 0 <= i < |x| ==> SameLetters(x[i], y[i])
  }

  lemma LettersLowered(a: string, b: string)
    ensures SameLetters(a, b) <==> LowerText(a) == LowerText(b)
  {
    var x, y := LowerText(a), LowerText(b);
    assert forall i :: 0 <= i < |a| && i < |b| ==> (SameLetter(a[i], b[i]) <==> x[i] == y[i]);
  }

  lemma WordsLowered(a: string, b: string)
    ensures SameWords(a, b) <==> LowerWords(a) == LowerWords(b)
  {
    var x, y := Words(a), Words(b);
    var lx, ly := LowerWords(a), LowerWords(b);
    hide Words, LowerText, SameLetters, LowerWords;
    LowerWordsAt(a);
    LowerWordsAt(b);
    forall i | 0 <= i < |x| && i < |y| ensures SameLetters(x[i], y[i]) <==> lx[i] == ly[i] {
      LettersLowered(x[i], y[i]);
    }
  }

  lemma LowerWordsAt(s: string)
    ensures |LowerWords(s)| == |Words(s)|
    ensures forall i :: 0 <= i < |Words(s)| ==> LowerWords(s)[i] == LowerText(Words(s)[i])
  {
  }

  /** Two seeds are the same for the vault exactly when their words are, case aside; a blank one has
      none. Comparing the compared form again changes nothing. */
  lemma SameSeedExactly(a: string, b: string)
    ensures NormalizeSeed(a) == NormalizeSeed(b) <==> SameWords(a, b)
    ensures NormalizeSeed(a) == "" <==> Blank(a)
    ensures NormalizeSeed(NormalizeSeed(a)) == NormalizeSeed(a)
  {
    NormalizedWords(a);
    NormalizedWords(b);
    NormalizedWords(NormalizeSeed(a));
    NoWords(a);
    NoWords(NormalizeSeed(a));
    LowerWordsAreLower(a);
    WordsLowered(a, b);
  }

  lemma NormalizedWords(s: string)
    ensures NormalizeSeed(s) == Join(LowerWords(s)) && Words(NormalizeSeed(s)) == LowerWords(s)
  {
    LowerOfJoin(Words(s));
    LowerWordsAreWords(s);
    WordsOfJoin(LowerWords(s));
  }

  lemma LowerWordsAreLower(s: string)
    ensures Map(LowerText, LowerWords(s)) == LowerWords(s)
  {
    forall i | 0 <= i < |LowerWords(s)| ensures LowerText(LowerWords(s)[i]) == LowerWords(s)[i] {
      var w := Words(s)[i];
      assert forall j :: 0 <= j < |w| ==> Lower(Lower(w[j])) == Lower(w[j]);
    }
  }

  /** The compared form, built up from the text: a text without space is lower-cased, and any space
      between two texts counts as one, or as none when one of them is blank. */
  lemma NormalizedByParts(w: string, a: string, c: char, b: string)
    ensures NoSpace(w) ==> NormalizeSeed(w) == Map(Lower, w)
    ensures IsSpace(c) ==>
              NormalizeSeed(a + [c] + b) == if Blank(a) then NormalizeSeed(b) else if Blank(b) then NormalizeSeed(a)
                                            else NormalizeSeed(a) + " " + NormalizeSeed(b)
  {
    if NoSpace(w) && w != "" {
      WordsOfWord(w);
      assert Join([w]) == w;
    }
    if IsSpace(c) {
      NormalizedApart(a, c, b);
    }
  }

  lemma NormalizedApart(a: string, c: char, b: string)
    requires IsSpace(c)
    ensures NormalizeSeed(a + [c] + b) == if Blank(a) then NormalizeSeed(b) else if Blank(b) then NormalizeSeed(a)
                                          else NormalizeSeed(a) + " " + NormalizeSeed(b)
  {
    LowerWordsApart(a, c, b);
    NormalizedWords(a);
    NormalizedWords(b);
    NormalizedWords(a + [c] + b);
    NoWords(a);
    NoWords(b);
    LowerWordsAt(a);
    LowerWordsAt(b);
    hide NormalizeSeed, Words, Join, LowerWords, Blank;
    var x, y := LowerWords(a), LowerWords(b);
    if x != [] && y != [] {
      JoinApart(x, y);
    } else {
      assert x + [] == x && [] + y == y;
    }
  }

  lemma LowerWordsApart(a: string, c: char, b: string)
    requires IsSpace(c)
    ensures LowerWords(a + [c] + b) == LowerWords(a) + LowerWords(b)
  {
    WordsApart(a, c, b);
    hide Words;
  }

  lemma {:induction false} JoinApart(a: seq<string>, b: seq<string>)
    requires a != [] && b != []
    ensures Join(a + b) == Join(a) + " " + Join(b)
  {
    assert (a + b)[1..] == a[1..] + b;
    if |a| > 1 {
      JoinApart(a[1..], b);
      assert Join(a + b) == a[0] + " " + (Join(a[1..]) + " " + Join(b));
      assert Join(a) == a[0] + " " + Join(a[1..]);
    } else {
      assert a[1..] + b == b;
    }
  }

  // The guard.

  function StoredSeed(current: Payload, kind: Kind): Option<string> {
    if kind.Xmr? then current.xmrSeed else if kind.Zph? then current.zphSeed else current.zanoSeed
  }

  /** The guard refuses exactly a save that would replace a seed: nothing is refused over a missing or
      blank seed, or when the words are the same and, for Zano, the passphrase is too. */
  lemma RefusedExactly(current: Payload, kind: Kind, seed: string, zanoPassphrase: string)
    requires kind.Xmr? || kind.Zph? || kind.Zano?
    ensures var stored := StoredSeed(current, kind);
            var refusal := FlatSeedRefusal(current, kind, seed, zanoPassphrase);
            var nothingStored := stored.None? || Blank(stored.value);
            var samePassphrase := !kind.Zano? || zanoPassphrase == current.zanoPassphrase.GetOr("");
            && (refusal.None? <==> nothingStored || (SameWords(stored.value, seed) && samePassphrase))
            && (refusal == Some(DifferentSeed) <==> !nothingStored && !SameWords(stored.value, seed))
            && (refusal == Some(DifferentPassphrase)
                <==> !nothingStored && SameWords(stored.value, seed) && !samePassphrase)
  {
    var stored := StoredSeed(current, kind);
    BlankSeed();
    if stored.Some? {
      SameSeedExactly(stored.value, seed);
    }
    hide NormalizeSeed, SameWords;
  }

  /** The payload with the seed of one kind replaced. */
  function WithSeed(current: Payload, kind: Kind, seed: Option<string>): Payload {
    match kind
    case Xmr => current.(xmrSeed := seed)
    case Zph => current.(zphSeed := seed)
    case Zano => current.(zanoSeed := seed)
    case _ => current
  }

  /** The seed that is stored may be saved again: with a new restore height, in other case or spacing,
      or with anything else of the payload that is no seed. */
  lemma ResavingIsAllowed(current: Payload, flat: Payload, kind: Kind)
    requires kind.Xmr? || kind.Zph? || kind.Zano?
    requires FlatSeed(current, kind).Some? && FlatSeed(flat, kind).Some?
    requires SameWords(FlatSeed(current, kind).value, FlatSeed(flat, kind).value)
    requires flat == WithSeed(current, kind, FlatSeed(flat, kind))
                     .(xmrHeight := flat.xmrHeight, xmrFormat := flat.xmrFormat, zphHeight := flat.zphHeight,
                       derivation := flat.derivation, devFeeAck := flat.devFeeAck)
    ensures GuardedSave(current, flat, Some(kind))
  {
    RefusedExactly(current, kind, FlatSeed(flat, kind).value, flat.zanoPassphrase.GetOr(""));
    hide SameWords;
  }

  /** So the scan-date card can store a new restore height. */
  lemma NewHeightIsSaved(current: Payload, height: Option<int>)
    requires current.xmrSeed.Some?
    ensures GuardedSave(current, current.(xmrHeight := height), Some(Xmr))
  {
    ResavingIsAllowed(current, current.(xmrHeight := height), Xmr);
  }
}
