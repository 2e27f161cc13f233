/** `handleVoiceCommand` (chess-board/src/components/VoiceControl.tsx): a
    recognised phrase becomes a SAN token for the board, or is refused with
    an alert. */
module Normalizer {
  import opened Text
  import opened Vocabulary
  import opened Rewrite

  /** What the handler does with a command. */
  datatype Outcome =
    | DirectSan(san: string)        // alert: spoken SAN letters are refused
    | Unparseable(command: string)  // alert: nothing was left of the command
    | Move(san: string)             // `onMoveCommand(san)`

  /** The alert shown for a refused command. */
  function AlertText(o: Outcome): string
    requires !o.Move?
  {
    match o
    case DirectSan(san) =>
      "Direct SAN moves like \"" + san + "\" are not allowed. Please say the move like \"knight f3\"."
    case Unparseable(command) => "Could not parse command: \"" + command + "\""
  }

  /** `/^[NBRQK][a-h][1-8]$/i`: a command that already is a piece move in SAN. */
  predicate IsDirectSan(s: string) {
    |s| == 3 && IsPieceLetter(s[0]) && IsFileLetter(s[1]) && IsRankDigit(s[2])
  }

  const MovePrefix: string := "move "

  /** A leading "move " (in any case) is dropped and the rest trimmed. */
  function DropMoveWord(s: string): string {
    if StartsWithIgnoreCase(s, MovePrefix) then Trim(s[|MovePrefix|..]) else s
  }

  /** The castling phrases, looked for in the command as it was heard. */
  function Castle(command: string, s: string): string {
    if ContainsIgnoreCase(command, KingsideCastle) then "O-O"
    else if ContainsIgnoreCase(command, QueensideCastle) then "O-O-O"
    else s
  }

  /** The four passes that give the token its SAN shape: the piece letter
      joined to the square, the capture mark joined to both, piece letters
      upper-cased and file letters lower-cased. */
  function Canonical(s: string): string {
    ReplaceAll(FileRank, ReplaceAll(PieceLetter, ReplaceAll(PieceCaptureSquare, ReplaceAll(PieceSpaceSquare, s))))
  }

  /** Everything after the piece names have been replaced. */
  function Finish(command: string, named: string): Outcome {
    var t := Trim(Canonical(Castle(command, ReplaceAll(CaptureVerbPattern, named))));
    if t == [] then Unparseable(command) else Move(t)
  }

  /** The handler with its second piece-name pass removed. That pass names an
      identifier that is declared nowhere (see `NormalizeAsWritten`). */
  function Normalize(command: string): Outcome {
    var s := Trim(command);
    if IsDirectSan(s) then DirectSan(s)
    else Finish(command, ReplaceAll(PieceNamePattern, DropMoveWord(s)))
  }

  // ---------------------------------------------------------------------
  // The handler as written.

  /** A run of the handler as written: it completes, or the callback of the
      second piece-name pass throws because `pieceMap` is not declared. */
  datatype Run = Completed(outcome: Outcome) | ReferenceError

  function NormalizeAsWritten(command: string): Run {
    var s := Trim(command);
    if IsDirectSan(s) then Completed(DirectSan(s))
    else
      var named := ReplaceAll(PieceNamePattern, DropMoveWord(s));
      // The callback, and with it the undeclared name, is reached only
      // where the pattern matches.
      if MatchesSomewhere(PieceNamePattern, named) then ReferenceError
      else Completed(Finish(command, ReplaceAll(PieceNamePattern, named)))
  }

  /** Where the handler as written does not throw, it does what `Normalize`
      does: the second pass then finds nothing to replace. */
  lemma AsWrittenAgrees(command: string)
    ensures NormalizeAsWritten(command) == ReferenceError || NormalizeAsWritten(command) == Completed(Normalize(command))
  {
    var s := Trim(command);
    if !IsDirectSan(s) {
      var named := ReplaceAll(PieceNamePattern, DropMoveWord(s));
      if !MatchesSomewhere(PieceNamePattern, named) {
        NoMatchReplaceAll(PieceNamePattern, named);
      }
    }
  }

  /** A command on which the handler as written throws. */
  const CrashingCommand: string := "king\U{F6}nig"

  /** The command spelt out piecewise, so that the proofs about the scan over
      it can keep its characters symbolic. */
  predicate IsCrashingCommand(c: string) {
    |c| == 8 && c[..4] == "king" && c[4..] == "\U{F6}nig"
  }

  lemma CrashingCommandSpelt(c: string)
    requires IsCrashingCommand(c)
    ensures c == CrashingCommand
  {
    assert c == c[..4] + c[4..];
  }

  /** "king" is the only table word that matches at the start of the command. */
  lemma KingAtStart(c: string, j: nat)
    requires c == CrashingCommand && j < |PieceNames|
    ensures PieceNames[19] == "king" && WordAt("king", c, 0)
    ensures WordAt(PieceNames[j], c, 0) ==> PieceNames[j] == "king"
  {
  }

  lemma OnlyKingAtStart(c: string)
    requires c == CrashingCommand
    ensures forall j | 0 <= j < |PieceNames| && WordAt(PieceNames[j], c, 0) :: PieceNames[j] == PieceNames[19]
  {
    forall j | 0 <= j < |PieceNames| && WordAt(PieceNames[j], c, 0) ensures PieceNames[j] == PieceNames[19] {
      KingAtStart(c, j);
    }
  }

  lemma KingFragment(c: string)
    requires c == CrashingCommand
    ensures LookupFragment(SynonymMap, c[0..4]) == "K"
  {
    assert c[0..4] == "king";
    LowerNoUpper("king");
  }

  lemma CrashingFirstStep(c: string)
    requires IsCrashingCommand(c)
    ensures Step(PieceNamePattern, c, 0) == Match(4, "K")
  {
    CrashingCommandSpelt(c);
    OnlyKingAtStart(c);
    KingAtStart(c, 19);
    StepOnlyWord(PieceNames, Lookup(SynonymMap), c, 0, 19);
    KingFragment(c);
  }

  /** No table word matches at "\U{F6}nig", "nig", "ig" or "g". */
  lemma NothingAfterKing(c: string, j: nat, q: nat)
    requires c == CrashingCommand && j < |PieceNames| && 4 <= q < |c|
    ensures !WordAt(PieceNames[j], c, q)
  {
    PieceNameAt(j);
    var w := PieceNames[j];
    if q == 4 && 0 < |w| && q + |w| <= |c| {
      assert c[q..q + |w|][0] == '\U{F6}';
    }
  }

  lemma CrashingLaterStep(c: string, q: nat)
    requires IsCrashingCommand(c) && 4 <= q < |c|
    ensures Step(PieceNamePattern, c, q) == Match(1, [c[q]])
  {
    CrashingCommandSpelt(c);
    forall j | 0 <= j < |PieceNames| ensures !WordAt(PieceNames[j], c, q) {
      NothingAfterKing(c, j, q);
    }
    StepNoWord(PieceNames, Lookup(SynonymMap), c, q);
  }

  /** The first pass turns "king\U{F6}nig" into "K\U{F6}nig". */
  lemma CrashingFirstPass(c: string)
    requires IsCrashingCommand(c)
    ensures ReplaceAll(PieceNamePattern, c) == "K" + c[4..]
  {
    var pat := PieceNamePattern;
    CrashingFirstStep(c);
    forall q | 4 <= q < |c| ensures Step(pat, c, q) == Match(1, [c[q]]) {
      CrashingLaterStep(c, q);
    }
    CopiesFrom(pat, c, 4);
    assert ReplaceFrom(pat, c, 0) == "K" + c[4..];
  }

  lemma CrashingNamed(c: string, named: string)
    requires IsCrashingCommand(c) && named == ReplaceAll(PieceNamePattern, c)
    ensures named == "K\U{F6}nig"
  {
    CrashingFirstPass(c);
  }

  /** The second pass finds "k\U{F6}nig" in "K\U{F6}nig". */
  lemma SecondPassMatches(named: string)
    requires named == "K\U{F6}nig"
    ensures MatchesSomewhere(PieceNamePattern, named)
  {
    assert WordAt(PieceNames[23], named, 0);
    FirstWordIsFirst(PieceNames, named, 0, 0);
    assert MatchAt(PieceNamePattern, named, 0).Some?;
  }

  lemma CrashingCommandKept(c: string)
    requires c == CrashingCommand
    ensures Trim(c) == c && !IsDirectSan(c) && DropMoveWord(c) == c
  {
    TrimOfTrimmed(c);
    assert Lower(c[..5][0]) != Lower(MovePrefix[0]);
  }

  /** On "king\U{F6}nig" the handler as written throws. */
  lemma AsWrittenThrows(c: string)
    requires c == CrashingCommand
    ensures NormalizeAsWritten(c) == ReferenceError
  {
    CrashingCommandKept(c);
    assert IsCrashingCommand(c);
    CrashingNamed(c, ReplaceAll(PieceNamePattern, c));
    SecondPassMatches(ReplaceAll(PieceNamePattern, c));
  }

  // ---------------------------------------------------------------------
  // Properties of the handler.

  /** A command is refused as direct SAN exactly when, trimmed, it is a piece
      letter, a file letter and a rank digit; the alert quotes it trimmed. */
  lemma DirectSanRefused(command: string)
    ensures Normalize(command).DirectSan? <==> IsDirectSan(Trim(command))
    ensures Normalize(command).DirectSan? ==> Normalize(command).san == Trim(command)
  {
  }

  /** A token handed to the board is never empty and has no surrounding
      whitespace; an unparseable command is quoted as it was heard. */
  lemma OutcomeShape(command: string)
    ensures Normalize(command).Move? ==> Normalize(command).san != [] && Trim(Normalize(command).san) == Normalize(command).san
    ensures Normalize(command).Unparseable? ==> Normalize(command).command == command
  {
    var o := Normalize(command);
    if o.Move? {
      TrimOfTrimmed(o.san);
    }
  }

  /** The case a token comes out in: the file letter of every square is a
      lower-case `a`-`h`, and every other piece letter is upper case. */
  predicate CaseShaped(t: string) {
    forall i | 0 <= i < |t| ::
      && (SquareAt(t, i) ==> 'a' <= t[i] <= 'h')
      && (IsPieceLetter(t[i]) && !SquareAt(t, i) ==> IsUpper(t[i]))
  }

  /** The last two passes leave every text case-shaped. */
  lemma CanonicalShaped(s: string)
    ensures CaseShaped(Canonical(s))
  {
    var x := ReplaceAll(PieceCaptureSquare, ReplaceAll(PieceSpaceSquare, s));
    PieceLetterPass(x);
    var c := CapitalizedPieces(x);
    FileRankPass(c);
    var l := LowerFiles(c);
    assert l == Canonical(s);
    forall i | 0 <= i < |l|
      ensures SquareAt(l, i) ==> 'a' <= l[i] <= 'h'
      ensures IsPieceLetter(l[i]) && !SquareAt(l, i) ==> IsUpper(l[i])
    {
      SquareKept(c, i);
    }
  }

  /** Lowering the squares' file letters changes no square of the text. */
  lemma SquareKept(c: string, i: nat)
    requires i < |c|
    ensures SquareAt(LowerFiles(c), i) <==> SquareAt(c, i)
    ensures SquareAt(c, i) ==> LowerFiles(c)[i] == Lower(c[i])
    ensures !SquareAt(c, i) ==> LowerFiles(c)[i] == c[i]
  {
    var l := LowerFiles(c);
    LowerIdempotent(c[i]);
    if i + 1 < |c| {
      LowerIdempotent(c[i + 1]);
      assert SquareAt(c, i + 1) ==> l[i + 1] == Lower(c[i + 1]) && !IsRankDigit(l[i + 1]);
    }
  }

  /** Trimming keeps a text case-shaped: the whitespace it drops is no rank
      digit, so no square is made or broken at the ends. */
  lemma TrimShaped(t: string)
    requires CaseShaped(t)
    ensures CaseShaped(Trim(t))
  {
    var r := Trim(t);
    forall j | 0 <= j < |r|
      ensures SquareAt(r, j) ==> 'a' <= r[j] <= 'h'
      ensures IsPieceLetter(r[j]) && !SquareAt(r, j) ==> IsUpper(r[j])
    {
      SquareInTrim(t, j);
    }
  }

  lemma SquareInTrim(t: string, j: nat)
    requires j < |Trim(t)|
    ensures Trim(t)[j] == t[Lead(t) + j] && (SquareAt(Trim(t), j) <==> SquareAt(t, Lead(t) + j))
  {
    var n, r := Lead(t), Trim(t);
    assert r == t[n..n + |r|];
    assert r[j] == t[n + j];
    if j + 1 < |r| {
      assert r[j + 1] == t[n + j + 1];
    } else if n + j + 1 < |t| {
      TrimWindow(t);
      assert IsSpace(t[n + j + 1]);
    }
  }

  /** Every token handed to the board is case-shaped. */
  lemma TokenCaseShaped(command: string)
    ensures Normalize(command).Move? ==> CaseShaped(Normalize(command).san)
  {
    var s := Trim(command);
    if !IsDirectSan(s) {
      var named := ReplaceAll(PieceNamePattern, DropMoveWord(s));
      var x := Castle(command, ReplaceAll(CaptureVerbPattern, named));
      CanonicalShaped(x);
      TrimShaped(Canonical(x));
    }
  }
}
