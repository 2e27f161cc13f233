/** What `handleVoiceCommand` (chess-board/src/components/VoiceControl.tsx)
    makes of the phrases it is written for: "<piece> <square>",
    "<piece> <verb> <square>", the castling phrases and the optional leading
    "move". */
module SpokenMoves {
  import opened Text
  import opened Vocabulary
  import opened Rewrite
  import opened Normalizer

  // ---------------------------------------------------------------------
  // The SAN-shaping passes on the few shapes a spoken move leaves.

  lemma FileLetterShape(f: char)
    requires IsFileLetter(f)
    ensures !IsSpace(f) && !IsRankDigit(f) && f != 'x' && f != 'X' && IsWordChar(f)
    ensures IsFileLetter(Upper(f)) && Lower(Upper(f)) == Lower(f)
  {
  }

  /** Whitespace is neither a piece letter, a file letter nor a rank digit. */
  lemma SpaceShape(c: char)
    requires IsSpace(c)
    ensures Lower(c) == c && !IsPieceLetter(c) && !IsFileLetter(c) && !IsRankDigit(c)
  {
  }

  /** Without a piece letter directly before whitespace, the piece-space-square
      pass changes nothing. */
  lemma NoJoin(s: string)
    requires forall i | 0 <= i < |s| - 1 :: !(IsPieceLetter(s[i]) && IsSpace(s[i + 1]))
    ensures ReplaceAll(PieceSpaceSquare, s) == s
  {
    forall p | 0 <= p < |s| ensures MatchAt(PieceSpaceSquare, s, p).None? {
      if p + 1 < |s| {
        assert !(IsPieceLetter(s[p]) && IsSpace(s[p + 1]));
      }
    }
    NoMatchReplaceAll(PieceSpaceSquare, s);
  }

  /** "N f3" becomes "Nf3". */
  lemma JoinPieceSquare(a: char, c: char, f: char, r: char)
    requires IsPieceLetter(a) && IsSpace(c) && IsFileLetter(f) && IsRankDigit(r)
    ensures ReplaceAll(PieceSpaceSquare, [a, c, f, r]) == [a, f, r]
  {
    var s := [a, c, f, r];
    FileLetterShape(f);
    assert SkipSpaces(s, 2) == 2;
    assert SkipSpaces(s, 1) == 2;
    assert Step(PieceSpaceSquare, s, 0) == Match(4, [a, f, r]);
    assert ReplaceFrom(PieceSpaceSquare, s, 4) == [];
    assert ReplaceFrom(PieceSpaceSquare, s, 0) == [a, f, r] + ReplaceFrom(PieceSpaceSquare, s, 4);
  }

  /** "N x e5" is left for the capture pass. */
  lemma NoJoinBeforeCapture(a: char, c1: char, c2: char, f: char, r: char)
    requires IsPieceLetter(a) && IsSpace(c1) && IsSpace(c2) && IsFileLetter(f) && IsRankDigit(r)
    ensures ReplaceAll(PieceSpaceSquare, [a, c1, 'x', c2, f, r]) == [a, c1, 'x', c2, f, r]
  {
    var s := [a, c1, 'x', c2, f, r];
    FileLetterShape(f);
    assert SkipSpaces(s, 2) == 2;
    assert SkipSpaces(s, 1) == 2;
    assert SkipSpaces(s, 5) == 5;
    forall p | 0 <= p < |s| ensures MatchAt(PieceSpaceSquare, s, p).None? {
    }
    NoMatchReplaceAll(PieceSpaceSquare, s);
  }

  /** Without an `x` the capture pass changes nothing. */
  lemma NoCapture(s: string)
    requires forall i | 0 <= i < |s| :: Lower(s[i]) != 'x'
    ensures ReplaceAll(PieceCaptureSquare, s) == s
  {
    forall p | 0 <= p < |s| ensures MatchAt(PieceCaptureSquare, s, p).None? {
    }
    NoMatchReplaceAll(PieceCaptureSquare, s);
  }

  /** "N x e5" becomes "Nxe5". */
  lemma JoinCapture(a: char, c1: char, c2: char, f: char, r: char)
    requires IsPieceLetter(a) && IsSpace(c1) && IsSpace(c2) && IsFileLetter(f) && IsRankDigit(r)
    ensures ReplaceAll(PieceCaptureSquare, [a, c1, 'x', c2, f, r]) == [a, 'x', f, r]
  {
    var s := [a, c1, 'x', c2, f, r];
    FileLetterShape(f);
    assert SkipSpaces(s, 2) == 2;
    assert SkipSpaces(s, 1) == 2;
    assert SkipSpaces(s, 4) == 4;
    assert SkipSpaces(s, 3) == 4;
    assert Step(PieceCaptureSquare, s, 0) == Match(6, [a, 'x', f, r]);
    assert ReplaceFrom(PieceCaptureSquare, s, 6) == [];
    assert ReplaceFrom(PieceCaptureSquare, s, 0) == [a, 'x', f, r] + ReplaceFrom(PieceCaptureSquare, s, 6);
  }

  /** " x e5", what a pawn capture leaves, is not joined ... */
  lemma PawnCaptureNotJoined(c1: char, c2: char, f: char, r: char)
    requires IsSpace(c1) && IsSpace(c2) && IsFileLetter(f) && IsRankDigit(r)
    ensures ReplaceAll(PieceSpaceSquare, [c1, 'x', c2, f, r]) == [c1, 'x', c2, f, r]
  {
    FileLetterShape(f);
    NoJoin([c1, 'x', c2, f, r]);
  }

  /** ... neither with the square nor, lacking a piece letter, as a capture. */
  lemma PawnCaptureNotMarked(c1: char, c2: char, f: char, r: char)
    requires IsSpace(c1) && IsSpace(c2) && IsFileLetter(f) && IsRankDigit(r)
    ensures ReplaceAll(PieceCaptureSquare, [c1, 'x', c2, f, r]) == [c1, 'x', c2, f, r]
  {
    var s := [c1, 'x', c2, f, r];
    FileLetterShape(f);
    assert SkipSpaces(s, 4) == 4;
    forall p | 0 <= p < |s| ensures MatchAt(PieceCaptureSquare, s, p).None? {
    }
    NoMatchReplaceAll(PieceCaptureSquare, s);
  }

  /** The last two passes on "<letter>?<gap>?<file><rank>": the file letter
      comes out lower-case and a piece letter upper-case. */
  lemma CaseCanonical(pre: string, f: char, r: char)
    requires IsFileLetter(f) && IsRankDigit(r)
    requires forall i | 0 <= i < |pre| :: !IsRankDigit(pre[i]) && (IsPieceLetter(pre[i]) ==> IsUpper(pre[i]))
    ensures ReplaceAll(FileRank, ReplaceAll(PieceLetter, pre + [f, r])) == pre + [Lower(f), r]
  {
    var s := pre + [f, r];
    FileLetterShape(f);
    PieceLetterPass(s);
    var t := CapitalizedPieces(s);
    assert t == pre + [if IsPieceLetter(f) then Upper(f) else f, r];
    FileRankPass(t);
    var l := LowerFiles(t);
    forall i | 0 <= i < |l| ensures l[i] == (pre + [Lower(f), r])[i] {
      if i < |pre| {
        assert !SquareAt(t, i);
      }
    }
    assert l == pre + [Lower(f), r];
  }

  // ---------------------------------------------------------------------
  // Commands the handler passes through unchanged up to the word passes.

  /** A word character is not whitespace, even lower-cased. */
  lemma WordCharShape(c: char)
    requires IsWordChar(c)
    ensures !IsSpace(c) && !IsSpace(Lower(c)) && IsWordChar(Lower(c))
  {
  }

  /** A command that begins with a piece name and a whitespace character does
      not begin with "move ". */
  lemma NotMovePrefixed(u: string, c: char, rest: string)
    requires LowerString(u) in SynonymMap && IsSpace(c)
    ensures !StartsWithIgnoreCase(u + [c] + rest, MovePrefix)
  {
    HeardPieceName(u);
    PrefixDiffersAt(u + [c] + rest, 0);
  }

  /** A text whose character `i` differs from that of "move ", ignoring
      case, does not start with it. */
  lemma PrefixDiffersAt(s: string, i: nat)
    requires i < |MovePrefix| && i < |s| && Lower(s[i]) != Lower(MovePrefix[i])
    ensures !StartsWithIgnoreCase(s, MovePrefix)
  {
    if |s| >= |MovePrefix| {
      assert s[..|MovePrefix|][i] == s[i];
    }
  }

  /** Too short a command holds no castling phrase. */
  lemma ShortNoCastle(command: string, s: string)
    requires |command| < |KingsideCastle|
    ensures Castle(command, s) == s
  {
  }

  /** The handler on a command of the form its word passes start from. */
  lemma SpokenCommand(command: string, u: string, c: char, rest: string)
    requires command == u + [c] + rest
    requires LowerString(u) in SynonymMap && IsSpace(c)
    requires rest != [] && !IsSpace(rest[|rest| - 1]) && |command| < |KingsideCastle|
    ensures Normalize(command) == Finish(command, ReplaceAll(PieceNamePattern, command))
    ensures Castle(command, ReplaceAll(CaptureVerbPattern, ReplaceAll(PieceNamePattern, command)))
         == ReplaceAll(CaptureVerbPattern, ReplaceAll(PieceNamePattern, command))
  {
    HeardPieceName(u);
    WordCharShape(u[0]);
    assert command[0] == u[0] && command[|command| - 1] == rest[|rest| - 1];
    TrimOfTrimmed(command);
    NotMovePrefixed(u, c, rest);
    ShortNoCastle(command, ReplaceAll(CaptureVerbPattern, ReplaceAll(PieceNamePattern, command)));
  }

  /** On such a command the handler's outcome is the shaped, trimmed result
      `w` of the word passes. */
  lemma SpokenOutcome(command: string, u: string, c: char, rest: string, w: string)
    requires command == u + [c] + rest
    requires LowerString(u) in SynonymMap && IsSpace(c)
    requires rest != [] && !IsSpace(rest[|rest| - 1]) && |command| < |KingsideCastle|
    requires ReplaceAll(CaptureVerbPattern, ReplaceAll(PieceNamePattern, command)) == w
    ensures Normalize(command) == if Trim(Canonical(w)) == [] then Unparseable(command) else Move(Trim(Canonical(w)))
  {
    SpokenCommand(command, u, c, rest);
  }

  // ---------------------------------------------------------------------
  // The spoken moves.

  /** The word passes on "<piece> <square>". */
  lemma WordsOfPieceToSquare(u: string, c: char, f: char, r: char)
    requires LowerString(u) in SynonymMap
    requires IsSpace(c) && IsFileLetter(f) && IsRankDigit(r)
    ensures ReplaceAll(CaptureVerbPattern, ReplaceAll(PieceNamePattern, u + [c] + [f, r]))
         == SynonymMap[LowerString(u)] + [c] + [f, r]
  {
    var l := SynonymMap[LowerString(u)];
    WordPatterns();
    SplitAtSpace(PieceNamePattern, u, c, [f, r]);
    PieceNameReplaced(u);
    ShortTextKept([f, r]);
    SplitAtSpace(CaptureVerbPattern, l, c, [f, r]);
    FragmentRange(LowerString(u));
    ShortTextKept(l);
  }

  /** "N f3" comes out of the shaping passes as "Nf3". */
  lemma LetterToSquareShape(a: char, c: char, f: char, r: char)
    requires IsPieceLetter(a) && IsUpper(a) && IsSpace(c) && IsFileLetter(f) && IsRankDigit(r)
    ensures Trim(Canonical([a, c, f, r])) == [a, Lower(f), r]
  {
    CanonicalLetterSquare(a, c, f, r);
    FileLetterShape(f);
    TrimOfTrimmed([a, Lower(f), r]);
  }

  lemma CanonicalLetterSquare(a: char, c: char, f: char, r: char)
    requires IsPieceLetter(a) && IsUpper(a) && IsSpace(c) && IsFileLetter(f) && IsRankDigit(r)
    ensures Canonical([a, c, f, r]) == [a, Lower(f), r]
  {
    FileLetterShape(f);
    JoinPieceSquare(a, c, f, r);
    var joined := ReplaceAll(PieceSpaceSquare, [a, c, f, r]);
    NoCapture(joined);
    assert [a, f, r] == [a] + [f, r];
    CaseCanonical([a], f, r);
    assert [a] + [Lower(f), r] == [a, Lower(f), r];
  }

  /** " e4" comes out of the shaping passes as " e4", trimmed to "e4". */
  lemma PawnToSquareShape(c: char, f: char, r: char)
    requires IsSpace(c) && IsFileLetter(f) && IsRankDigit(r)
    ensures Trim(Canonical([c, f, r])) == [Lower(f), r]
  {
    CanonicalPawnSquare(c, f, r);
    FileLetterShape(f);
    TrimUnique([c], [Lower(f), r], []);
    assert [c] + [Lower(f), r] + [] == [c] + [Lower(f), r];
  }

  lemma CanonicalPawnSquare(c: char, f: char, r: char)
    requires IsSpace(c) && IsFileLetter(f) && IsRankDigit(r)
    ensures Canonical([c, f, r]) == [c] + [Lower(f), r]
  {
    FileLetterShape(f);
    SpaceShape(c);
    NoJoin([c, f, r]);
    NoCapture([c, f, r]);
    assert [c, f, r] == [c] + [f, r];
    CaseCanonical([c], f, r);
  }

  /** The SAN-shaping passes and the final trim on what "<piece> <square>"
      leaves. */
  lemma ShapeOfPieceToSquare(l: string, c: char, f: char, r: char)
    requires l == [] || (|l| == 1 && IsPieceLetter(l[0]) && IsUpper(l[0]))
    requires IsSpace(c) && IsFileLetter(f) && IsRankDigit(r)
    ensures Trim(Canonical(l + [c] + [f, r])) == l + [Lower(f), r]
  {
    var x := l + [c] + [f, r];
    var y := l + [Lower(f), r];
    if l != [] {
      SquareAfterLetter(x, y, l[0], c, f, r);
    } else {
      SquareAfterNothing(x, y, c, f, r);
    }
  }

  lemma SquareAfterLetter(x: string, y: string, a: char, c: char, f: char, r: char)
    requires IsPieceLetter(a) && IsUpper(a) && IsSpace(c) && IsFileLetter(f) && IsRankDigit(r)
    requires x == [a] + [c] + [f, r] && y == [a] + [Lower(f), r]
    ensures Trim(Canonical(x)) == y
  {
    assert x == [a, c, f, r] && y == [a, Lower(f), r];
    LetterToSquareShape(a, c, f, r);
  }

  lemma SquareAfterNothing(x: string, y: string, c: char, f: char, r: char)
    requires IsSpace(c) && IsFileLetter(f) && IsRankDigit(r)
    requires x == [] + [c] + [f, r] && y == [] + [Lower(f), r]
    ensures Trim(Canonical(x)) == y
  {
    assert x == [c, f, r] && y == [Lower(f), r];
    PawnToSquareShape(c, f, r);
  }

  /** "<piece> <square>": the piece name, in any case, becomes its SAN letter
      (none for a pawn) and the square follows with its file lower-cased,
      e.g. "knight f3" gives "Nf3" and "pawn E4" gives "e4". */
  lemma PieceToSquare(u: string, c: char, f: char, r: char)
    requires LowerString(u) in SynonymMap
    requires IsSpace(c) && IsFileLetter(f) && IsRankDigit(r)
    ensures Normalize(u + [c] + [f, r]) == Move(SynonymMap[LowerString(u)] + [Lower(f), r])
  {
    var command := u + [c] + [f, r];
    var w := SynonymMap[LowerString(u)] + [c] + [f, r];
    TableWordLength(LowerString(u));
    WordsOfPieceToSquare(u, c, f, r);
    SpokenOutcome(command, u, c, [f, r], w);
    FragmentRange(LowerString(u));
    ShapeOfPieceToSquare(SynonymMap[LowerString(u)], c, f, r);
  }

  /** A piece name followed by a space and a square written in lower case
      gives the name's fragment and the square. */
  lemma NamedToSquare(u: string, l: string, f: char, r: char, command: string, san: string)
    requires LowerString(u) in SynonymMap && SynonymMap[LowerString(u)] == l
    requires IsFileLetter(f) && IsLower(f) && IsRankDigit(r)
    requires command == u + [' ', f, r] && san == l + [f, r]
    ensures Normalize(command) == Move(san)
  {
    PieceToSquare(u, ' ', f, r);
    assert u + [' '] + [f, r] == u + [' ', f, r];
  }

  /** The accented names are heard in any case: "L\U{E4}ufer e4" and
      "L\U{C4}UFER e4" give "Be4", "K\U{F6}nigin d1" gives "Qd1" and
      "PE\U{C3}O e4" gives "e4". */
  lemma AccentedBishop(u: string)
    requires LowerString(u) == "l\U{E4}ufer"
    ensures Normalize(u + " e4") == Move("Be4")
  {
    NamedToSquare(u, "B", 'e', '4', u + " e4", "Be4");
  }

  lemma AccentedQueen(u: string)
    requires LowerString(u) == "k\U{F6}nigin"
    ensures Normalize(u + " d1") == Move("Qd1")
  {
    NamedToSquare(u, "Q", 'd', '1', u + " d1", "Qd1");
  }

  lemma AccentedPawn(u: string)
    requires LowerString(u) == "pe\U{E3}o"
    ensures Normalize(u + " e4") == Move("e4")
  {
    NamedToSquare(u, "", 'e', '4', u + " e4", "e4");
  }

  /** The word passes on "<piece> <verb> <square>". */
  lemma WordsOfPieceTakesSquare(u: string, c1: char, v: string, c2: char, f: char, r: char)
    requires LowerString(u) in SynonymMap
    requires LowerString(v) in CaptureVerbs
    requires IsSpace(c1) && IsSpace(c2) && IsFileLetter(f) && IsRankDigit(r)
    ensures ReplaceAll(CaptureVerbPattern, ReplaceAll(PieceNamePattern, u + [c1] + v + [c2] + [f, r]))
         == SynonymMap[LowerString(u)] + [c1] + ("x" + [c2] + [f, r])
  {
    var l := SynonymMap[LowerString(u)];
    assert u + [c1] + v + [c2] + [f, r] == u + [c1] + (v + [c2] + [f, r]);
    WordPatterns();
    SplitAtSpace(PieceNamePattern, u, c1, v + [c2] + [f, r]);
    SplitAtSpace(PieceNamePattern, v, c2, [f, r]);
    PieceNameReplaced(u);
    CaptureVerbKept(v);
    ShortTextKept([f, r]);
    SplitAtSpace(CaptureVerbPattern, l, c1, v + [c2] + [f, r]);
    SplitAtSpace(CaptureVerbPattern, v, c2, [f, r]);
    FragmentRange(LowerString(u));
    ShortTextKept(l);
    CaptureVerbReplaced(v);
  }

  /** "N x e5" comes out of the shaping passes as "Nxe5". */
  lemma LetterTakesSquareShape(a: char, c1: char, c2: char, f: char, r: char)
    requires IsPieceLetter(a) && IsUpper(a) && IsSpace(c1) && IsSpace(c2)
    requires IsFileLetter(f) && IsRankDigit(r)
    ensures Trim(Canonical([a, c1, 'x', c2, f, r])) == [a, 'x', Lower(f), r]
  {
    CanonicalLetterCapture(a, c1, c2, f, r);
    FileLetterShape(f);
    TrimOfTrimmed([a, 'x', Lower(f), r]);
  }

  lemma CanonicalLetterCapture(a: char, c1: char, c2: char, f: char, r: char)
    requires IsPieceLetter(a) && IsUpper(a) && IsSpace(c1) && IsSpace(c2)
    requires IsFileLetter(f) && IsRankDigit(r)
    ensures Canonical([a, c1, 'x', c2, f, r]) == [a, 'x', Lower(f), r]
  {
    FileLetterShape(f);
    NoJoinBeforeCapture(a, c1, c2, f, r);
    JoinCapture(a, c1, c2, f, r);
    assert [a, 'x', f, r] == [a, 'x'] + [f, r];
    CaseCanonical([a, 'x'], f, r);
    assert [a, 'x'] + [Lower(f), r] == [a, 'x', Lower(f), r];
  }

  /** " x e5" comes out of the shaping passes as " x e5", trimmed to "x e5". */
  lemma PawnTakesSquareShape(c1: char, c2: char, f: char, r: char)
    requires IsSpace(c1) && IsSpace(c2) && IsFileLetter(f) && IsRankDigit(r)
    ensures Trim(Canonical([c1, 'x', c2, f, r])) == ['x', c2, Lower(f), r]
  {
    CanonicalPawnCapture(c1, c2, f, r);
    FileLetterShape(f);
    TrimUnique([c1], ['x', c2, Lower(f), r], []);
  }

  lemma CanonicalPawnCapture(c1: char, c2: char, f: char, r: char)
    requires IsSpace(c1) && IsSpace(c2) && IsFileLetter(f) && IsRankDigit(r)
    ensures Canonical([c1, 'x', c2, f, r]) == [c1] + ['x', c2, Lower(f), r] + []
  {
    PawnCaptureNotJoined(c1, c2, f, r);
    PawnCaptureNotMarked(c1, c2, f, r);
    SpaceShape(c1);
    SpaceShape(c2);
    var pre := [c1, 'x', c2];
    assert pre + [f, r] == [c1, 'x', c2, f, r];
    assert forall i | 0 <= i < |pre| :: !IsRankDigit(pre[i]) && (IsPieceLetter(pre[i]) ==> IsUpper(pre[i]));
    CaseCanonical(pre, f, r);
    assert [c1, 'x', c2] + [Lower(f), r] == [c1] + ['x', c2, Lower(f), r] + [];
  }

  /** The SAN-shaping passes and the final trim on what
      "<piece> <verb> <square>" leaves. */
  lemma ShapeOfPieceTakesSquare(l: string, c1: char, c2: char, f: char, r: char)
    requires l == [] || (|l| == 1 && IsPieceLetter(l[0]) && IsUpper(l[0]))
    requires IsSpace(c1) && IsSpace(c2) && IsFileLetter(f) && IsRankDigit(r)
    ensures Trim(Canonical(l + [c1] + ("x" + [c2] + [f, r])))
         == if l != [] then l + "x" + [Lower(f), r] else "x" + [c2] + [Lower(f), r]
  {
    var x := l + [c1] + ("x" + [c2] + [f, r]);
    if l != [] {
      CaptureAfterLetter(x, l + "x" + [Lower(f), r], l[0], c1, c2, f, r);
    } else {
      CaptureAfterNothing(x, "x" + [c2] + [Lower(f), r], c1, c2, f, r);
    }
  }

  lemma CaptureAfterLetter(x: string, y: string, a: char, c1: char, c2: char, f: char, r: char)
    requires IsPieceLetter(a) && IsUpper(a) && IsSpace(c1) && IsSpace(c2)
    requires IsFileLetter(f) && IsRankDigit(r)
    requires x == [a] + [c1] + ("x" + [c2] + [f, r]) && y == [a] + "x" + [Lower(f), r]
    ensures Trim(Canonical(x)) == y
  {
    assert x == [a, c1, 'x', c2, f, r] && y == [a, 'x', Lower(f), r];
    LetterTakesSquareShape(a, c1, c2, f, r);
  }

  lemma CaptureAfterNothing(x: string, y: string, c1: char, c2: char, f: char, r: char)
    requires IsSpace(c1) && IsSpace(c2) && IsFileLetter(f) && IsRankDigit(r)
    requires x == [] + [c1] + ("x" + [c2] + [f, r]) && y == "x" + [c2] + [Lower(f), r]
    ensures Trim(Canonical(x)) == y
  {
    assert x == [c1, 'x', c2, f, r] && y == ['x', c2, Lower(f), r];
    PawnTakesSquareShape(c1, c2, f, r);
  }

  /** "<piece> <verb> <square>": for a piece the capture becomes "Nxe5"; for a
      pawn, which has no letter, the mark stays apart from the square
      ("pawn takes e5" gives "x e5"). */
  lemma PieceTakesSquare(u: string, c1: char, v: string, c2: char, f: char, r: char)
    requires LowerString(u) in SynonymMap
    requires LowerString(v) in CaptureVerbs
    requires IsSpace(c1) && IsSpace(c2) && IsFileLetter(f) && IsRankDigit(r)
    ensures var l := SynonymMap[LowerString(u)];
      Normalize(u + [c1] + v + [c2] + [f, r])
        == if l != [] then Move(l + "x" + [Lower(f), r]) else Move("x" + [c2] + [Lower(f), r])
  {
    var command := u + [c1] + v + [c2] + [f, r];
    HeardCaptureVerb(v);
    TableWordLength(LowerString(u));
    assert command == u + [c1] + (v + [c2] + [f, r]);
    WordsOfPieceTakesSquare(u, c1, v, c2, f, r);
    SpokenOutcome(command, u, c1, v + [c2] + [f, r], SynonymMap[LowerString(u)] + [c1] + ("x" + [c2] + [f, r]));
    FragmentRange(LowerString(u));
    ShapeOfPieceTakesSquare(SynonymMap[LowerString(u)], c1, c2, f, r);
  }

  // ---------------------------------------------------------------------
  // Castling.

  /** A command containing a phrase that starts and ends with a letter is,
      trimmed, at least as long as the phrase. */
  lemma PhraseSurvivesTrim(command: string, phrase: string)
    requires ContainsIgnoreCase(command, phrase) && phrase != []
    requires !IsSpace(phrase[0]) && !IsSpace(phrase[|phrase| - 1])
    ensures |phrase| <= |Trim(command)|
  {
    var i :| 0 <= i <= |command| - |phrase| && OccursAt(command, phrase, i);
    OccurrenceInWindow(command, phrase, i);
  }

  /** The four shaping passes leave a run of "O" and "-" alone. */
  lemma CastleCharsUnjoined(t: string)
    requires forall i | 0 <= i < |t| :: t[i] == 'O' || t[i] == '-'
    ensures ReplaceAll(PieceSpaceSquare, t) == t && ReplaceAll(PieceCaptureSquare, t) == t
  {
    forall i | 0 <= i < |t| - 1 ensures !(IsPieceLetter(t[i]) && IsSpace(t[i + 1])) {
      assert t[i] == 'O' || t[i] == '-';
    }
    NoJoin(t);
    forall i | 0 <= i < |t| ensures Lower(t[i]) != 'x' {
      assert t[i] == 'O' || t[i] == '-';
    }
    NoCapture(t);
  }

  lemma CastleCharsCased(t: string)
    requires forall i | 0 <= i < |t| :: t[i] == 'O' || t[i] == '-'
    ensures ReplaceAll(PieceLetter, t) == t && ReplaceAll(FileRank, t) == t
  {
    PieceLetterPass(t);
    forall i | 0 <= i < |t| ensures CapitalizedPieces(t)[i] == t[i] {
      assert t[i] == 'O' || t[i] == '-';
    }
    FileRankPass(t);
    forall i | 0 <= i < |t| ensures LowerFiles(t)[i] == t[i] {
      assert t[i] == 'O' || t[i] == '-';
    }
  }

  /** The castling tokens come out of the shaping passes unchanged. */
  lemma CastleTokenKept(t: string)
    requires t != [] && t[0] == 'O' && t[|t| - 1] == 'O'
    requires forall i | 0 <= i < |t| :: t[i] == 'O' || t[i] == '-'
    ensures Trim(Canonical(t)) == t
  {
    CastleCharsUnjoined(t);
    CastleCharsCased(t);
    TrimOfTrimmed(t);
  }

  /** A command containing "king castle kingside", in any case, anywhere, is
      kingside castling. */
  lemma KingsideCastling(command: string)
    requires ContainsIgnoreCase(command, KingsideCastle)
    ensures Normalize(command) == Move("O-O")
  {
    PhraseSurvivesTrim(command, KingsideCastle);
    CastleTokenKept("O-O");
  }

  /** Otherwise, one containing "king castle queenside" is queenside
      castling. */
  lemma QueensideCastling(command: string)
    requires !ContainsIgnoreCase(command, KingsideCastle)
    requires ContainsIgnoreCase(command, QueensideCastle)
    ensures Normalize(command) == Move("O-O-O")
  {
    PhraseSurvivesTrim(command, QueensideCastle);
    CastleTokenKept("O-O-O");
  }

  // ---------------------------------------------------------------------
  // The optional leading "move".

  /** A slice of `b` is the same slice of `a + b`, shifted by `|a|`. */
  lemma SliceAfterPrefix(a: string, b: string, i: nat, k: nat)
    requires i + k <= |b|
    ensures (a + b)[|a| + i..|a| + i + k] == b[i..i + k]
  {
    assert forall x | |a| + i <= x < |a| + i + k :: (a + b)[x] == b[x - |a|];
  }

  /** A phrase starting with `k` cannot begin inside "move ", so it occurs in
      "move " + x exactly when it occurs in x. */
  lemma PhraseAfterMoveWord(x: string, phrase: string)
    requires phrase != [] && phrase[0] == 'k'
    ensures ContainsIgnoreCase(MovePrefix + x, phrase) <==> ContainsIgnoreCase(x, phrase)
  {
    var s := MovePrefix + x;
    if ContainsIgnoreCase(s, phrase) {
      var i :| 0 <= i <= |s| - |phrase| && OccursAt(s, phrase, i);
      PhraseNotInMoveWord(s, x, phrase, i);
    }
    if ContainsIgnoreCase(x, phrase) {
      var i :| 0 <= i <= |x| - |phrase| && OccursAt(x, phrase, i);
      SliceAfterPrefix(MovePrefix, x, i, |phrase|);
      assert OccursAt(s, phrase, i + |MovePrefix|);
    }
  }

  /** An occurrence of a phrase starting with 'k' lies after "move ". */
  lemma PhraseNotInMoveWord(s: string, x: string, phrase: string, i: nat)
    requires s == MovePrefix + x && phrase != [] && phrase[0] == 'k'
    requires i <= |s| - |phrase| && OccursAt(s, phrase, i)
    ensures i >= |MovePrefix| && OccursAt(x, phrase, i - |MovePrefix|)
  {
    var n := |MovePrefix|;
    assert Lower(s[i..i + |phrase|][0]) == Lower(phrase[0]);
    assert forall j | 0 <= j < n :: Lower(s[j]) != 'k' by {
      forall j | 0 <= j < n ensures Lower(s[j]) != 'k' {
        assert s[j] == MovePrefix[j];
      }
    }
    assert i >= n;
    SliceAfterPrefix(MovePrefix, x, i - n, |phrase|);
  }

  /** A word (not starting with whitespace) followed by whitespace, text and
      whitespace trims to the word, the leading whitespace and the text. */
  lemma TrimWordThen(w: string, p: string, t: string, q: string)
    requires w != [] && !IsSpace(w[0]) && AllSpace(p) && AllSpace(q)
    requires t != [] && !IsSpace(t[0]) && !IsSpace(t[|t| - 1])
    ensures Trim(w + (p + t + q)) == w + (p + t)
  {
    var m := w + (p + t);
    Associative(w, p + t, q);
    assert [] + m + q == w + (p + t + q);
    assert m[0] == w[0] && m[|m| - 1] == t[|t| - 1];
    TrimUnique([], m, q);
  }

  /** What follows the word then trims to the text. */
  lemma RestAfterWord(w: string, p: string, t: string)
    requires AllSpace(p) && t != [] && !IsSpace(t[0]) && !IsSpace(t[|t| - 1])
    ensures |w| < |w + (p + t)| && (w + (p + t))[..|w|] == w
    ensures Trim((w + (p + t))[|w|..]) == t
  {
    var m := w + (p + t);
    assert m[|w|..] == p + t + [];
    TrimUnique(p, t, []);
  }

  /** A word followed by a command trims to the word, the command's leading
      whitespace and its trimmed text; what follows the word trims to the
      command trimmed. */
  lemma TrimAfterWord(w: string, x: string)
    requires w != [] && !IsSpace(w[0]) && Trim(x) != []
    ensures |w| < |Trim(w + x)| && Trim(w + x)[..|w|] == w
    ensures Trim(Trim(w + x)[|w|..]) == Trim(x)
  {
    var p, t := x[..Lead(x)], Trim(x);
    var q := x[Lead(x) + |t|..];
    TrimSplit(x);
    TrimWordThen(w, p, t, q);
    RestAfterWord(w, p, t);
  }

  /** "move " followed by a command trims to a text that starts with "move "
      and whose rest trims to the command trimmed. */
  lemma TrimAfterMoveWord(x: string)
    requires Trim(x) != []
    ensures |Trim(MovePrefix + x)| > |MovePrefix|
    ensures StartsWithIgnoreCase(Trim(MovePrefix + x), MovePrefix)
    ensures Trim(Trim(MovePrefix + x)[|MovePrefix|..]) == Trim(x)
  {
    TrimAfterWord(MovePrefix, x);
  }

  /** The refusal of spoken SAN looks at the command before "move " is
      dropped: "Nf3" is refused, "move Nf3" is not. */
  lemma MoveWordPassesSanRefusal(s: string)
    requires IsDirectSan(s)
    ensures Normalize(s) == DirectSan(s)
    ensures !Normalize(MovePrefix + s).DirectSan?
  {
    TrimOfTrimmed(s);
    TrimOfTrimmed(MovePrefix + s);
  }

  /** The handler ignores a leading "move " — the outcome is the same as for
      the rest of the command, an unparseable one quoting the whole command —
      unless the rest, trimmed, is itself direct SAN, starts with another
      "move " (the prefix is stripped once), or is empty: "move " followed by
      whitespace alone trims to "move", which is not stripped and is handed
      on to the later passes, while an empty command is unparseable. */
  lemma MoveWordIgnored(x: string)
    requires Trim(x) != [] && !IsDirectSan(Trim(x)) && !StartsWithIgnoreCase(Trim(x), MovePrefix)
    ensures Normalize(MovePrefix + x)
         == if Normalize(x).Unparseable? then Unparseable(MovePrefix + x) else Normalize(x)
  {
    TrimAfterMoveWord(x);
    PhraseAfterMoveWord(x, KingsideCastle);
    PhraseAfterMoveWord(x, QueensideCastle);
  }

  // ---------------------------------------------------------------------
  // The transcript trimmed before it is handled.

  /** An occurrence of a phrase that starts and ends with a non-whitespace
      character lies inside the trimmed text. */
  lemma OccurrenceInWindow(s: string, phrase: string, i: nat)
    requires phrase != [] && !IsSpace(phrase[0]) && !IsSpace(phrase[|phrase| - 1])
    requires i <= |s| - |phrase| && OccursAt(s, phrase, i)
    ensures Lead(s) <= i && i + |phrase| <= Lead(s) + |Trim(s)|
  {
    var k := i + |phrase| - 1;
    assert Lower(s[i..i + |phrase|][0]) == Lower(phrase[0]);
    assert Lower(s[i..i + |phrase|][|phrase| - 1]) == Lower(phrase[|phrase| - 1]);
    LowerKeepsSpace(s[i]);
    LowerKeepsSpace(phrase[0]);
    LowerKeepsSpace(s[k]);
    LowerKeepsSpace(phrase[|phrase| - 1]);
    TrimWindow(s);
  }

  lemma OccurrenceToTrim(s: string, phrase: string, i: nat)
    requires Lead(s) <= i && i + |phrase| <= Lead(s) + |Trim(s)|
    requires OccursAt(s, phrase, i)
    ensures OccursAt(Trim(s), phrase, i - Lead(s))
  {
    var l, t := Lead(s), Trim(s);
    SliceOfSlice(s, l, |t|, i - l, |phrase|);
  }

  lemma OccurrenceFromTrim(s: string, phrase: string, j: nat)
    requires j <= |Trim(s)| - |phrase| && OccursAt(Trim(s), phrase, j)
    ensures j + Lead(s) <= |s| - |phrase| && OccursAt(s, phrase, j + Lead(s))
  {
    var l, t := Lead(s), Trim(s);
    SliceOfSlice(s, l, |t|, j, |phrase|);
  }

  /** A slice of a slice is a slice of the whole. */
  lemma SliceOfSlice(s: string, l: nat, n: nat, i: nat, k: nat)
    requires l + n <= |s| && i + k <= n
    ensures s[l..l + n][i..i + k] == s[l + i..l + i + k]
  {
    var u := s[l..l + n];
    assert forall x | i <= x < i + k :: u[x] == s[l + x];
  }

  /** Such a phrase occurs in a text exactly when it occurs in the trimmed
      text. */
  lemma PhraseInTrim(s: string, phrase: string)
    requires phrase != [] && !IsSpace(phrase[0]) && !IsSpace(phrase[|phrase| - 1])
    ensures ContainsIgnoreCase(Trim(s), phrase) <==> ContainsIgnoreCase(s, phrase)
  {
    if ContainsIgnoreCase(s, phrase) {
      var i :| 0 <= i <= |s| - |phrase| && OccursAt(s, phrase, i);
      OccurrenceInWindow(s, phrase, i);
      OccurrenceToTrim(s, phrase, i);
    }
    if ContainsIgnoreCase(Trim(s), phrase) {
      var j :| 0 <= j <= |Trim(s)| - |phrase| && OccursAt(Trim(s), phrase, j);
      OccurrenceFromTrim(s, phrase, j);
    }
  }

  /** `onresult` hands the handler the transcript already trimmed, which
      changes nothing but the command an unparseable alert quotes. */
  lemma TrimmedBeforeHandling(transcript: string)
    ensures Normalize(Trim(transcript))
         == if Normalize(transcript).Unparseable? then Unparseable(Trim(transcript)) else Normalize(transcript)
  {
    TrimOfTrimmed(Trim(transcript));
    PhraseInTrim(transcript, KingsideCastle);
    PhraseInTrim(transcript, QueensideCastle);
  }
}
