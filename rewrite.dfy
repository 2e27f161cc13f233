/** `String.prototype.replace` with a global regular expression, for the six
    expressions `handleVoiceCommand` applies
    (chess-board/src/components/VoiceControl.tsx). The search starts at
    position 0; where a match begins, its replacement is emitted and the search
    resumes after it; elsewhere the character is copied. No pattern here can
    match the empty string. */
module Rewrite {
  import opened Text
  import opened Vocabulary
  import opened Wrappers

  /** What replaces a matched word. */
  datatype WordReplacement =
    | Lookup(table: map<string, string>)  // table[match.toLowerCase()] || ""
    | Constant(text: string)              // a fixed string

  datatype Pattern =
    | Words(alternatives: seq<string>, replacement: WordReplacement)  // \b(w0|w1|...)\b, gi
    | PieceSpaceSquare     // ([BNRQK])\s+([a-h][1-8]), gi  ->  "$1$2"
    | PieceCaptureSquare   // ([BNRQK])\s*x\s*([a-h][1-8]), gi  ->  "$1x$2"
    | PieceLetter          // ([bnrqk]), gi  ->  m.toUpperCase()
    | FileRank             // ([a-h])([1-8]), gi  ->  file.toLowerCase() + rank

  /** A match: how many characters it consumes and what replaces them. */
  datatype Match = Match(len: nat, text: string)

  /** The piece-name pattern, built from `Object.keys(synonymMap)`. */
  const PieceNamePattern: Pattern := Words(PieceNames, Lookup(SynonymMap))

  /** The capture-verb pattern. */
  const CaptureVerbPattern: Pattern := Words(CaptureVerbs, Constant("x"))

  /** A word pattern none of whose alternatives contains whitespace. */
  predicate IsWordPattern(pat: Pattern) {
    pat.Words? && forall k | 0 <= k < |pat.alternatives| :: SpaceFree(pat.alternatives[k])
  }

  lemma WordPatterns()
    ensures IsWordPattern(PieceNamePattern) && IsWordPattern(CaptureVerbPattern)
  {
    forall k | 0 <= k < |PieceNames| ensures SpaceFree(PieceNames[k]) { PieceNameAt(k); }
    forall k | 0 <= k < |CaptureVerbs| ensures SpaceFree(CaptureVerbs[k]) { CaptureVerbAt(k); }
  }

  function WordText(r: WordReplacement, matched: string): string {
    match r
    case Lookup(table) => LookupFragment(table, matched)
    case Constant(text) => text
  }

  /** `\bw\b` matches at `p`, ignoring ASCII case. */
  predicate WordAt(w: string, s: string, p: nat) {
    && 0 < |w| && p + |w| <= |s|
    && IsBoundary(s, p) && IsBoundary(s, p + |w|)
    && EqualsIgnoreCase(s[p..p + |w|], w)
  }

  /** Ordered alternation: the index of the first alternative, from index `k`
      on, that matches at `p` (its meaning is stated by `FirstWordIsFirst`). */
  function FirstWord(keys: seq<string>, s: string, p: nat, k: nat): (r: Option<nat>)
    requires k <= |keys|
    ensures r.Some? ==> k <= r.value < |keys| && 0 < |keys[r.value]| && p + |keys[r.value]| <= |s|
    decreases |keys| - k
  {
    if k == |keys| then None
    else if WordAt(keys[k], s, p) then Some(k)
    else FirstWord(keys, s, p, k + 1)
  }

  /** `FirstWord` finds the alternative that matches and that no earlier one
      does, and finds none only when no alternative matches. */
  lemma {:induction false} FirstWordIsFirst(keys: seq<string>, s: string, p: nat, k: nat)
    requires k <= |keys|
    ensures var r := FirstWord(keys, s, p, k);
            && (r.Some? ==> WordAt(keys[r.value], s, p) && forall j | k <= j < r.value :: !WordAt(keys[j], s, p))
            && (r.None? <==> forall j | k <= j < |keys| :: !WordAt(keys[j], s, p))
    decreases |keys| - k
  {
    if k < |keys| && !WordAt(keys[k], s, p) {
      FirstWordIsFirst(keys, s, p, k + 1);
    }
  }

  /** A step of a word pattern where exactly one alternative matches. */
  lemma StepOnlyWord(keys: seq<string>, r: WordReplacement, s: string, p: nat, j: nat)
    requires p < |s| && j < |keys| && WordAt(keys[j], s, p)
    requires forall i | 0 <= i < |keys| && WordAt(keys[i], s, p) :: keys[i] == keys[j]
    ensures Step(Words(keys, r), s, p) == Match(|keys[j]|, WordText(r, s[p..p + |keys[j]|]))
  {
    FirstWordIsFirst(keys, s, p, 0);
    var f := FirstWord(keys, s, p, 0);
    assert f.Some? && WordAt(keys[f.value], s, p);
    assert keys[f.value] == keys[j];
    assert WordMatch(keys, r, s, p) == Some(Match(|keys[j]|, WordText(r, s[p..p + |keys[j]|])));
  }

  /** A step of a word pattern where no alternative matches. */
  lemma StepNoWord(keys: seq<string>, r: WordReplacement, s: string, p: nat)
    requires p < |s|
    requires forall i | 0 <= i < |keys| :: !WordAt(keys[i], s, p)
    ensures Step(Words(keys, r), s, p) == Match(1, [s[p]])
  {
    FirstWordIsFirst(keys, s, p, 0);
  }

  /** The first index at or after `i` that does not hold whitespace (`\s*` taken greedily). */
  function SkipSpaces(s: string, i: nat): (r: nat)
    requires i <= |s|
    ensures i <= r <= |s| && AllSpace(s[i..r]) && (r == |s| || !IsSpace(s[r]))
    decreases |s| - i
  {
    if i < |s| && IsSpace(s[i]) then SkipSpaces(s, i + 1) else i
  }

  /** The match of `pat` that begins at `p`, if any. */
  function MatchAt(pat: Pattern, s: string, p: nat): (r: Option<Match>)
    requires p < |s|
    ensures r.Some? ==> 0 < r.value.len <= |s| - p
  {
    match pat
    case Words(keys, replacement) => WordMatch(keys, replacement, s, p)
    case PieceSpaceSquare => PieceSpaceSquareMatch(s, p)
    case PieceCaptureSquare => PieceCaptureSquareMatch(s, p)
    case PieceLetter => PieceLetterMatch(s, p)
    case FileRank => FileRankMatch(s, p)
  }

  function WordMatch(keys: seq<string>, replacement: WordReplacement, s: string, p: nat): (r: Option<Match>)
    requires p < |s|
    ensures r.Some? ==> 0 < r.value.len <= |s| - p
  {
    match FirstWord(keys, s, p, 0)
    case Some(k) => Some(Match(|keys[k]|, WordText(replacement, s[p..p + |keys[k]|])))
    case None => None
  }

  /* The whitespace runs below are taken maximally: what follows them (a file
     letter or `x`) is never whitespace, so backtracking into a run cannot
     produce a match. */

  function PieceSpaceSquareMatch(s: string, p: nat): (r: Option<Match>)
    requires p < |s|
    ensures r.Some? ==> 0 < r.value.len <= |s| - p
  {
    var q := SkipSpaces(s, p + 1);
    if IsPieceLetter(s[p]) && q > p + 1 && q + 1 < |s| && IsFileLetter(s[q]) && IsRankDigit(s[q + 1])
    then Some(Match(q + 2 - p, [s[p], s[q], s[q + 1]]))
    else None
  }

  function PieceCaptureSquareMatch(s: string, p: nat): (r: Option<Match>)
    requires p < |s|
    ensures r.Some? ==> 0 < r.value.len <= |s| - p
  {
    var q := SkipSpaces(s, p + 1);
    if IsPieceLetter(s[p]) && q < |s| && Lower(s[q]) == 'x' then
      var t := SkipSpaces(s, q + 1);
      if t + 1 < |s| && IsFileLetter(s[t]) && IsRankDigit(s[t + 1])
      then Some(Match(t + 2 - p, [s[p], 'x', s[t], s[t + 1]]))
      else None
    else None
  }

  function PieceLetterMatch(s: string, p: nat): (r: Option<Match>)
    requires p < |s|
    ensures r.Some? ==> r.value.len == 1
  {
    if IsPieceLetter(s[p]) then Some(Match(1, [Upper(s[p])])) else None
  }

  function FileRankMatch(s: string, p: nat): (r: Option<Match>)
    requires p < |s|
    ensures r.Some? ==> r.value.len == 2 && p + 1 < |s|
  {
    if p + 1 < |s| && IsFileLetter(s[p]) && IsRankDigit(s[p + 1])
    then Some(Match(2, [Lower(s[p]), s[p + 1]]))
    else None
  }

  /** One step of the scan: the match at `p`, or else the character at `p`
      copied. */
  function Step(pat: Pattern, s: string, p: nat): (m: Match)
    requires p < |s|
    ensures 0 < m.len <= |s| - p
  {
    match MatchAt(pat, s, p)
    case Some(m) => m
    case None => Match(1, [s[p]])
  }

  function ReplaceFrom(pat: Pattern, s: string, p: nat): string
    requires p <= |s|
    decreases |s| - p
  {
    if p == |s| then []
    else
      var m := Step(pat, s, p);
      m.text + ReplaceFrom(pat, s, p + m.len)
  }

  /** `s.replace(pat, ...)` with the `g` flag. */
  function ReplaceAll(pat: Pattern, s: string): string {
    ReplaceFrom(pat, s, 0)
  }

  predicate MatchesSomewhere(pat: Pattern, s: string) {
    exists p | 0 <= p < |s| :: MatchAt(pat, s, p).Some?
  }

  /** Where every step from `p` on copies a character, the rest of the text
      comes out unchanged. */
  lemma {:induction false} CopiesFrom(pat: Pattern, s: string, p: nat)
    requires p <= |s|
    requires forall q | p <= q < |s| :: Step(pat, s, q) == Match(1, [s[q]])
    ensures ReplaceFrom(pat, s, p) == s[p..]
    decreases |s| - p
  {
    if p < |s| {
      CopiesFrom(pat, s, p + 1);
      ReplaceFromStep(pat, s, p);
      assert Step(pat, s, p) == Match(1, [s[p]]);
      assert s[p..] == [s[p]] + s[p + 1..];
    }
  }

  /** Where the pattern matches nowhere, the text is left unchanged. */
  lemma {:induction false} NoMatchUnchanged(pat: Pattern, s: string, p: nat)
    requires p <= |s|
    requires forall q | p <= q < |s| :: MatchAt(pat, s, q).None?
    ensures ReplaceFrom(pat, s, p) == s[p..]
    decreases |s| - p
  {
    if p < |s| {
      NoMatchUnchanged(pat, s, p + 1);
    }
  }

  lemma NoMatchReplaceAll(pat: Pattern, s: string)
    requires !MatchesSomewhere(pat, s)
    ensures ReplaceAll(pat, s) == s
  {
    NoMatchUnchanged(pat, s, 0);
  }

  // ---------------------------------------------------------------------
  // Locality of the word patterns: whether a word matches at `p` depends
  // only on the character before `p` and the text from `p` on.

  lemma WordAtLocal(w: string, s: string, p: nat, t: string, q: nat)
    requires p <= |s| && q <= |t| && s[p..] == t[q..]
    requires WordCharAt(s, p - 1) == WordCharAt(t, q - 1)
    ensures WordAt(w, s, p) == WordAt(w, t, q)
  {
    assert |s| - p == |t| - q;
    if 0 < |w| && p + |w| <= |s| {
      assert s[p..p + |w|] == t[q..q + |w|] by {
        assert s[p..p + |w|] == s[p..][..|w|];
        assert t[q..q + |w|] == t[q..][..|w|];
      }
      assert s[p + |w| - 1] == s[p..][|w| - 1];
      assert t[q + |w| - 1] == t[q..][|w| - 1];
      if p + |w| < |s| {
        assert s[p + |w|] == s[p..][|w|];
        assert t[q + |w|] == t[q..][|w|];
      }
      if p < |s| {
        assert s[p] == s[p..][0] && t[q] == t[q..][0];
      }
    }
  }

  lemma FirstWordLocal(keys: seq<string>, s: string, p: nat, t: string, q: nat, k: nat)
    requires k <= |keys|
    requires p <= |s| && q <= |t| && s[p..] == t[q..]
    requires WordCharAt(s, p - 1) == WordCharAt(t, q - 1)
    ensures FirstWord(keys, s, p, k) == FirstWord(keys, t, q, k)
    decreases |keys| - k
  {
    if k < |keys| {
      WordAtLocal(keys[k], s, p, t, q);
      FirstWordLocal(keys, s, p, t, q, k + 1);
    }
  }

  lemma MatchAtLocal(pat: Pattern, s: string, p: nat, t: string, q: nat)
    requires pat.Words?
    requires p < |s| && q < |t| && s[p..] == t[q..]
    requires WordCharAt(s, p - 1) == WordCharAt(t, q - 1)
    ensures MatchAt(pat, s, p) == MatchAt(pat, t, q)
  {
    FirstWordLocal(pat.alternatives, s, p, t, q, 0);
    match FirstWord(pat.alternatives, s, p, 0)
    case Some(k) =>
      var n := |pat.alternatives[k]|;
      assert s[p..p + n] == s[p..][..n] == t[q..][..n] == t[q..q + n];
    case None =>
  }

  /** Text that matches a whitespace-free word holds no whitespace. */
  lemma NoSpaceInWord(w: string, s: string, p: nat)
    requires p + |w| <= |s| && SpaceFree(w) && EqualsIgnoreCase(s[p..p + |w|], w)
    ensures forall i | p <= i < p + |w| :: !IsSpace(s[i])
  {
    forall i | p <= i < p + |w| ensures !IsSpace(s[i]) {
      assert Lower(s[p..p + |w|][i - p]) == Lower(w[i - p]);
    }
  }

  /** A word match never spans whitespace: the text before a whitespace
      character `c` matches at `p` exactly as it does with `c` and what follows. */
  lemma WordAtPrefix(w: string, a: string, c: char, b: string, p: nat)
    requires p <= |a| && IsSpace(c) && SpaceFree(w)
    ensures WordAt(w, a + [c] + b, p) == WordAt(w, a, p)
  {
    var s := a + [c] + b;
    assert WordCharAt(s, p - 1) == WordCharAt(a, p - 1);
    assert WordCharAt(s, p) == WordCharAt(a, p);
    if 0 < |w| && p + |w| <= |s| && EqualsIgnoreCase(s[p..p + |w|], w) {
      NoSpaceInWord(w, s, p);
      assert s[|a|] == c;
      if p + |w| > |a| {
        assert false;
      }
      assert s[p..p + |w|] == a[p..p + |w|];
      assert WordCharAt(s, p + |w| - 1) == WordCharAt(a, p + |w| - 1);
      assert WordCharAt(s, p + |w|) == WordCharAt(a, p + |w|);
    }
  }

  lemma FirstWordPrefix(pat: Pattern, a: string, c: char, b: string, p: nat, k: nat)
    requires IsWordPattern(pat) && k <= |pat.alternatives|
    requires p <= |a| && IsSpace(c)
    ensures FirstWord(pat.alternatives, a + [c] + b, p, k) == FirstWord(pat.alternatives, a, p, k)
    decreases |pat.alternatives| - k
  {
    if k < |pat.alternatives| {
      WordAtPrefix(pat.alternatives[k], a, c, b, p);
      FirstWordPrefix(pat, a, c, b, p, k + 1);
    }
  }

  /** After a whitespace character, the word patterns rewrite the rest of the
      text as if it stood alone. */
  lemma {:induction false} ReplaceAfterSpace(pat: Pattern, a: string, c: char, b: string, q: nat)
    requires pat.Words? && IsSpace(c) && q <= |b|
    ensures ReplaceFrom(pat, a + [c] + b, |a| + 1 + q) == ReplaceFrom(pat, b, q)
    decreases |b| - q
  {
    var s := a + [c] + b;
    var p := |a| + 1 + q;
    if q < |b| {
      StepAfterSpace(pat, a, c, b, q);
      ReplaceFromStep(pat, s, p);
      ReplaceFromStep(pat, b, q);
      ReplaceAfterSpace(pat, a, c, b, q + Step(pat, b, q).len);
    }
  }

  /** After a whitespace character, a word pattern takes the same step as in
      the text that starts there. */
  lemma StepAfterSpace(pat: Pattern, a: string, c: char, b: string, q: nat)
    requires pat.Words? && IsSpace(c) && q < |b|
    ensures Step(pat, a + [c] + b, |a| + 1 + q) == Step(pat, b, q)
  {
    var s := a + [c] + b;
    var p := |a| + 1 + q;
    assert s[p..] == b[q..];
    assert WordCharAt(s, p - 1) == WordCharAt(b, q - 1);
    MatchAtLocal(pat, s, p, b, q);
    assert s[p] == b[q];
  }

  /** Before a whitespace character, a word pattern takes the same step as in
      the text that ends there. */
  lemma StepBeforeSpace(pat: Pattern, a: string, c: char, b: string, p: nat)
    requires IsWordPattern(pat) && IsSpace(c) && p < |a|
    ensures Step(pat, a + [c] + b, p) == Step(pat, a, p)
  {
    var s := a + [c] + b;
    FirstWordPrefix(pat, a, c, b, p, 0);
    assert s[p] == a[p];
    match FirstWord(pat.alternatives, a, p, 0)
    case Some(k) =>
      var n := |pat.alternatives[k]|;
      assert s[p..p + n] == a[p..p + n];
    case None =>
  }

  /** A word pattern copies the whitespace character itself. */
  lemma StepAtSpace(pat: Pattern, a: string, c: char, b: string)
    requires IsWordPattern(pat) && IsSpace(c)
    ensures Step(pat, a + [c] + b, |a|) == Match(1, [c])
  {
    FirstWordPrefix(pat, a, c, b, |a|, 0);
    assert FirstWord(pat.alternatives, a, |a|, 0).None?;
  }

  lemma Associative(x: string, y: string, z: string)
    ensures x + (y + z) == x + y + z
  {
  }

  /** The scan reaching the whitespace character copies it and goes on
      through the rest as if it stood alone. */
  lemma ReplaceAtSpace(pat: Pattern, a: string, c: char, b: string)
    requires IsWordPattern(pat) && IsSpace(c)
    ensures ReplaceFrom(pat, a + [c] + b, |a|) == ReplaceFrom(pat, a, |a|) + ([c] + ReplaceAll(pat, b))
  {
    var s := a + [c] + b;
    StepAtSpace(pat, a, c, b);
    ReplaceAfterSpace(pat, a, c, b, 0);
    assert ReplaceFrom(pat, s, |a|) == [c] + ReplaceFrom(pat, s, |a| + 1);
  }

  /** One step before the whitespace character keeps the two scans in line. */
  lemma ReplaceBeforeSpace(pat: Pattern, a: string, c: char, b: string, p: nat)
    requires IsWordPattern(pat) && IsSpace(c) && p < |a|
    requires var m := Step(pat, a, p);
      ReplaceFrom(pat, a + [c] + b, p + m.len) == ReplaceFrom(pat, a, p + m.len) + ([c] + ReplaceAll(pat, b))
    ensures ReplaceFrom(pat, a + [c] + b, p) == ReplaceFrom(pat, a, p) + ([c] + ReplaceAll(pat, b))
  {
    var s := a + [c] + b;
    StepBeforeSpace(pat, a, c, b, p);
    var m := Step(pat, a, p);
    ReplaceFromStep(pat, s, p);
    ReplaceFromStep(pat, a, p);
    Associative(m.text, ReplaceFrom(pat, a, p + m.len), [c] + ReplaceAll(pat, b));
  }

  /** One step of the scan. */
  lemma ReplaceFromStep(pat: Pattern, s: string, p: nat)
    requires p < |s|
    ensures ReplaceFrom(pat, s, p) == Step(pat, s, p).text + ReplaceFrom(pat, s, p + Step(pat, s, p).len)
  {
  }

  lemma {:induction false} ReplaceAcrossSpace(pat: Pattern, a: string, c: char, b: string, p: nat)
    requires IsWordPattern(pat) && IsSpace(c) && p <= |a|
    ensures ReplaceFrom(pat, a + [c] + b, p) == ReplaceFrom(pat, a, p) + ([c] + ReplaceAll(pat, b))
    decreases |a| - p
  {
    if p == |a| {
      ReplaceAtSpace(pat, a, c, b);
    } else {
      ReplaceAcrossSpace(pat, a, c, b, p + Step(pat, a, p).len);
      ReplaceBeforeSpace(pat, a, c, b, p);
    }
  }

  /** The word patterns rewrite the words on either side of a whitespace
      character independently and leave the whitespace itself in place. */
  lemma SplitAtSpace(pat: Pattern, a: string, c: char, b: string)
    requires IsWordPattern(pat) && IsSpace(c)
    ensures ReplaceAll(pat, a + [c] + b) == ReplaceAll(pat, a) + [c] + ReplaceAll(pat, b)
  {
    ReplaceAcrossSpace(pat, a, c, b, 0);
    Associative(ReplaceAll(pat, a), [c], ReplaceAll(pat, b));
  }

  // ---------------------------------------------------------------------
  // What the word patterns do to a single word and to text too short for
  // any alternative.

  /** Text shorter than every alternative is left unchanged. */
  lemma ShortUnchanged(pat: Pattern, s: string)
    requires pat.Words?
    requires forall k | 0 <= k < |pat.alternatives| :: |s| < |pat.alternatives[k]|
    ensures ReplaceAll(pat, s) == s
  {
    forall q | 0 <= q < |s| ensures MatchAt(pat, s, q).None? {
      FirstWordIsFirst(pat.alternatives, s, q, 0);
    }
    NoMatchReplaceAll(pat, s);
  }

  /** Lower-casing twice is lower-casing once. */
  lemma LowerIdempotent(c: char)
    ensures Lower(Lower(c)) == Lower(c)
  {
  }

  /** Inside a run of word characters there is no `\b`. */
  lemma NoInnerBoundary(u: string, i: int)
    requires AllWordChars(u) && 0 < i < |u|
    ensures !IsBoundary(u, i)
  {
  }

  /** A text that is one run of word characters is replaced as a whole when
      its lower-case form is one of the alternatives and is left unchanged
      otherwise (the alternatives being written in lower case). */
  lemma WholeWord(pat: Pattern, u: string)
    requires pat.Words? && AllWordChars(u)
    requires forall k | 0 <= k < |pat.alternatives| :: NoUpper(pat.alternatives[k])
    ensures ReplaceAll(pat, u) == if u != [] && LowerString(u) in pat.alternatives then WordText(pat.replacement, u) else u
  {
    var keys := pat.alternatives;
    if u == [] {
    } else {
      // Only an alternative as long as `u` can end at a `\b`, and such an
      // alternative equals `LowerString(u)`.
      forall k | 0 <= k < |keys| && WordAt(keys[k], u, 0)
        ensures keys[k] == LowerString(u)
      {
        if |keys[k]| < |u| {
          NoInnerBoundary(u, |keys[k]|);
        }
        assert u[0..|keys[k]|] == u;
        forall i | 0 <= i < |u| ensures keys[k][i] == LowerString(u)[i] {
          assert Lower(u[i]) == Lower(keys[k][i]);
        }
      }
      FirstWordIsFirst(keys, u, 0, 0);
      if LowerString(u) in keys {
        var j :| 0 <= j < |keys| && keys[j] == LowerString(u);
        forall i | 0 <= i < |u| ensures Lower(u[i]) == Lower(keys[j][i]) {
          LowerIdempotent(u[i]);
        }
        assert u[0..|u|] == u;
        assert WordAt(keys[j], u, 0);
        var k := FirstWord(keys, u, 0, 0).value;
        assert |keys[k]| == |u|;
        assert Step(pat, u, 0) == Match(|u|, WordText(pat.replacement, u));
        assert ReplaceFrom(pat, u, |u|) == [];
      } else {
        assert MatchAt(pat, u, 0).None?;
        forall q | 1 <= q < |u| ensures MatchAt(pat, u, q).None? {
          FirstWordIsFirst(keys, u, q, 0);
          NoInnerBoundary(u, q);
        }
        NoMatchReplaceAll(pat, u);
      }
    }
  }

  /** An alternative that matches at the start of a text that is, ignoring
      case, `keys[i]` is a prefix of `keys[i]`. */
  lemma EarlierWordIsPrefix(keys: seq<string>, u: string, i: nat, j: nat)
    requires i < |keys| && j < |keys| && LowerString(u) == keys[i] && NoUpper(keys[j])
    ensures WordAt(keys[j], u, 0) ==> IsPrefixOf(keys[j], keys[i])
  {
    if WordAt(keys[j], u, 0) {
      var m := |keys[j]|;
      forall x | 0 <= x < m ensures keys[j][x] == keys[i][..m][x] {
        assert u[0..m][x] == u[x];
      }
    }
  }

  /** A text that is, ignoring case, the alternative `keys[i]` and that begins
      and ends with a word character is replaced as a whole, whatever
      characters outside `[A-Za-z0-9_]` (and so `\b`s) it holds inside, when
      no alternative listed before `keys[i]` is a prefix of it. */
  lemma WholeAlternative(pat: Pattern, u: string, i: nat)
    requires pat.Words? && i < |pat.alternatives| && LowerString(u) == pat.alternatives[i]
    requires forall k | 0 <= k < |pat.alternatives| :: NoUpper(pat.alternatives[k])
    requires PrefixOrdered(pat.alternatives)
    requires u != [] && IsWordChar(u[0]) && IsWordChar(u[|u| - 1])
    ensures ReplaceAll(pat, u) == WordText(pat.replacement, u)
  {
    var keys := pat.alternatives;
    assert u[0..|u|] == u;
    forall x | 0 <= x < |u| ensures Lower(u[x]) == Lower(keys[i][x]) {
      assert Lower(u[x]) == keys[i][x];
    }
    assert WordAt(keys[i], u, 0);
    forall j | 0 <= j < i ensures !WordAt(keys[j], u, 0) {
      EarlierWordIsPrefix(keys, u, i, j);
    }
    FirstWordIsFirst(keys, u, 0, 0);
    assert FirstWord(keys, u, 0, 0) == Some(i);
    ReplaceFromStep(pat, u, 0);
  }

  // ---------------------------------------------------------------------
  // The two case-canonicalising passes, each described character by
  // character.

  /** Every piece letter upper-cased, every other character kept. */
  function CapitalizedPieces(s: string): (r: string)
    ensures |r| == |s|
  {
    seq(|s|, i requires 0 <= i < |s| => if IsPieceLetter(s[i]) then Upper(s[i]) else s[i])
  }

  lemma {:induction false} PieceLetterFrom(s: string, p: nat)
    requires p <= |s|
    ensures ReplaceFrom(PieceLetter, s, p) == CapitalizedPieces(s)[p..]
    decreases |s| - p
  {
    if p < |s| {
      PieceLetterFrom(s, p + 1);
      assert CapitalizedPieces(s)[p..] == [CapitalizedPieces(s)[p]] + CapitalizedPieces(s)[p + 1..];
    }
  }

  /** `/([bnrqk])/gi` with `m.toUpperCase()` capitalises exactly the piece
      letters. */
  lemma PieceLetterPass(s: string)
    ensures ReplaceAll(PieceLetter, s) == CapitalizedPieces(s)
  {
    PieceLetterFrom(s, 0);
  }

  /** Whether a square (file letter, rank digit) begins at `i`. */
  predicate SquareAt(s: string, i: int) {
    0 <= i && i + 1 < |s| && IsFileLetter(s[i]) && IsRankDigit(s[i + 1])
  }

  /** The file letter of every square lower-cased, every other character kept. */
  function LowerFiles(s: string): (r: string)
    ensures |r| == |s|
  {
    seq(|s|, i requires 0 <= i < |s| => if SquareAt(s, i) then Lower(s[i]) else s[i])
  }

  lemma {:induction false} FileRankFrom(s: string, p: nat)
    requires p <= |s|
    ensures ReplaceFrom(FileRank, s, p) == LowerFiles(s)[p..]
    decreases |s| - p
  {
    if p < |s| {
      var l := LowerFiles(s);
      if SquareAt(s, p) {
        FileRankFrom(s, p + 2);
        assert !SquareAt(s, p + 1);
        assert l[p..] == [l[p], l[p + 1]] + l[p + 2..];
      } else {
        FileRankFrom(s, p + 1);
        assert l[p..] == [l[p]] + l[p + 1..];
      }
    }
  }

  /** `/([a-h])([1-8])/gi` lower-cases the file letter of every square and
      nothing else: a rank digit is never a file letter, so squares never
      overlap. */
  lemma FileRankPass(s: string)
    ensures ReplaceAll(FileRank, s) == LowerFiles(s)
  {
    FileRankFrom(s, 0);
  }

  // ---------------------------------------------------------------------
  // The two word patterns of the handler on single words.

  lemma PieceNamesLowerCase()
    ensures forall k | 0 <= k < |PieceNames| :: NoUpper(PieceNames[k]) && 3 <= |PieceNames[k]|
  {
    forall k | 0 <= k < |PieceNames| ensures NoUpper(PieceNames[k]) && 3 <= |PieceNames[k]| {
      PieceNameAt(k);
      PieceNameLength(k);
    }
  }

  lemma CaptureVerbsLowerCase()
    ensures forall k | 0 <= k < |CaptureVerbs| :: NoUpper(CaptureVerbs[k]) && 4 <= |CaptureVerbs[k]|
  {
    forall k | 0 <= k < |CaptureVerbs| ensures NoUpper(CaptureVerbs[k]) && 4 <= |CaptureVerbs[k]| {
      CaptureVerbAt(k);
    }
  }

  /** A spoken piece name, in any case, becomes its SAN letter (nothing for
      a pawn); this holds for the accented names as well, in which `\b` also
      falls next to the accented letter. */
  lemma PieceNameReplaced(u: string)
    requires LowerString(u) in SynonymMap
    ensures ReplaceAll(PieceNamePattern, u) == SynonymMap[LowerString(u)]
  {
    PieceNamesLowerCase();
    PieceNamesAreTheKeys(LowerString(u));
    var i :| 0 <= i < |PieceNames| && PieceNames[i] == LowerString(u);
    HeardPieceName(u);
    PieceNamesPrefixOrdered();
    WholeAlternative(PieceNamePattern, u, i);
  }

  /** A capture verb, in any case, becomes "x" ... */
  lemma CaptureVerbReplaced(v: string)
    requires LowerString(v) in CaptureVerbs
    ensures ReplaceAll(CaptureVerbPattern, v) == "x"
  {
    HeardCaptureVerb(v);
    CaptureVerbsLowerCase();
    WholeWord(CaptureVerbPattern, v);
  }

  /** ... and is no piece name. */
  lemma CaptureVerbKept(v: string)
    requires LowerString(v) in CaptureVerbs
    ensures ReplaceAll(PieceNamePattern, v) == v
  {
    HeardCaptureVerb(v);
    var i :| 0 <= i < |CaptureVerbs| && CaptureVerbs[i] == LowerString(v);
    CaptureVerbAt(i);
    PieceNamesAreTheKeys(LowerString(v));
    PieceNamesLowerCase();
    WholeWord(PieceNamePattern, v);
  }

  /** Text of at most two characters holds no piece name and no capture verb. */
  lemma ShortTextKept(s: string)
    requires |s| <= 2
    ensures ReplaceAll(PieceNamePattern, s) == s && ReplaceAll(CaptureVerbPattern, s) == s
  {
    PieceNamesLowerCase();
    CaptureVerbsLowerCase();
    ShortUnchanged(PieceNamePattern, s);
    ShortUnchanged(CaptureVerbPattern, s);
  }
}
