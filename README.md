# Chess board: voice commands, session controller and board helpers

This project is a Dafny model of the logic inside the React chess board of
`chess-board/src/components`. It covers five parts:

- **The voice-command normaliser** (`handleVoiceCommand` in `VoiceControl.tsx`).
  - It turns a recognised phrase such as "knight f3" or "rook takes b4" into a
    SAN token ("Nf3", "Rxb4"), or refuses it. SAN is Standard Algebraic
    Notation, section 8.2.3 of the PGN Standard.
  - It is a fixed chain of JavaScript regular-expression rewrites:
    - direct SAN is refused;
    - a leading "move " is dropped;
    - a multilingual piece-name table is applied;
    - capture verbs become `x`;
    - the castling phrases override everything;
    - the piece letter is joined to the square;
    - the case is made canonical;
    - the result is trimmed.
  - Each regular expression is modelled as a left-to-right global scan with
    ordered alternation, the `\b` of JavaScript without the `u` flag, and
    the `i` flag (modules `Text`, `Vocabulary`, `Rewrite`, `Normalizer`).
  - Module `SpokenMoves` proves what the handler makes of the phrases it is
    written for.
- **The speech-recognition lifecycle** of the same component (module
  `Listening`). It is a class over the flags `listeningRef`,
  `isRecognizingRef` and `hasMicErrorRef`, the error message, the last
  transcript, and the log of `start()`/`stop()` calls made on the
  recognition object.
- **The game session controller** of `ChessBoard.tsx` (module `Session`).
  - It is a class holding the selection, the cached destinations, the SAN
    history, the last-move marker, the game-over message and the listening
    flag.
  - It drives the rules engine, an abstract oracle (module `Rules`). The
    engine's answers are parameters of each handler.
  - Its invariant is that the history is exactly the SAN of the engine's
    plies.
- **The two helpers of `utils.ts`** (module `Utils`): square names, and the
  piece image file names.
- **The move-list pairing and auto-scroll rule** of `MoveHistory.tsx`, and the
  per-square values of the `Board.tsx` render (modules `MoveHistory` and
  `BoardView`).

Module `Wrappers` holds the `Option` type.

## Model

| member | source | states |
|---|---|---|
| Text.Trim | chess-board/src/components/VoiceControl.tsx:183 | `trim()` returns the window of the text that starts at its first non-whitespace character and neither starts nor ends with whitespace |
| Text.TrimWindow | chess-board/src/components/VoiceControl.tsx:183 | every character `trim()` drops is whitespace, and every non-whitespace character lies in the kept window |
| Text.TrimSplit | chess-board/src/components/VoiceControl.tsx:266 | a text is its leading whitespace, its trimmed text and its trailing whitespace, put together again |
| Text.TrimUnique | chess-board/src/components/VoiceControl.tsx:266 | whitespace, then a text with no whitespace at either end, then whitespace, trims to exactly that text |
| Text.TrimOfTrimmed | chess-board/src/components/VoiceControl.tsx:192 | trimming a text with no whitespace at either end changes nothing |
| Text.TrimAllSpace | chess-board/src/components/VoiceControl.tsx:266-268 | a text that is all whitespace trims to the empty string |
| Vocabulary.PieceNamesAreTheKeys | chess-board/src/components/VoiceControl.tsx:196-238 | the alternatives of the piece-name pattern are exactly the keys of `synonymMap` |
| Vocabulary.PieceNameWellFormed | chess-board/src/components/VoiceControl.tsx:196-231 | every key is a non-empty lower-case word without whitespace |
| Vocabulary.TableWordLength | chess-board/src/components/VoiceControl.tsx:196-231 | every spoken piece name is three to seven characters long |
| Vocabulary.FragmentRange | chess-board/src/components/VoiceControl.tsx:196-231 | every fragment is one of N, B, R, Q, K or the empty pawn fragment, and a non-empty one is an upper-case piece letter |
| Vocabulary.CaptureVerbAt | chess-board/src/components/VoiceControl.tsx:250 | every capture verb is a lower-case run of word characters, four to eight long, and is not a piece name |
| Vocabulary.PieceNamesPrefixOrdered | chess-board/src/components/VoiceControl.tsx:196-238 | no key of the table is a prefix of a key listed after it ("königin" comes before "könig", "reine" before "rei") |
| Vocabulary.HeardPieceName | chess-board/src/components/VoiceControl.tsx:196-231 | a piece name heard in any case is three to seven characters long, starts and ends with a word character, holds no whitespace and does not start with "m" |
| Vocabulary.HeardCaptureVerb | chess-board/src/components/VoiceControl.tsx:250 | a capture verb heard in any case is all word characters, four to eight long |
| Rewrite.FirstWordIsFirst | chess-board/src/components/VoiceControl.tsx:235-238 | ordered alternation picks the first alternative that matches as a whole word at the position, and finds none only when no alternative matches there |
| Rewrite.NoMatchReplaceAll | chess-board/src/components/VoiceControl.tsx:241-248 | where a pattern matches nowhere, a global replace leaves the text as it is |
| Rewrite.SplitAtSpace | chess-board/src/components/VoiceControl.tsx:241-243 | the word patterns rewrite the text on each side of a whitespace character independently and keep the whitespace in place |
| Rewrite.WholeWord | chess-board/src/components/VoiceControl.tsx:241-243 | a single run of word characters is replaced as a whole when its lower-case form is an alternative, and is left unchanged otherwise |
| Rewrite.ShortUnchanged | chess-board/src/components/VoiceControl.tsx:241-243 | a text shorter than every alternative is left unchanged |
| Rewrite.PieceNameReplaced | chess-board/src/components/VoiceControl.tsx:236-243 | a spoken piece name, in any case and with its accented letters too, becomes its SAN fragment from the table |
| Rewrite.WholeAlternative | chess-board/src/components/VoiceControl.tsx:236-243 | a text that is, ignoring case, one alternative of the `\b`-anchored alternation and begins and ends with a word character is replaced as a whole, even with `\b`s inside it, when no earlier alternative is a prefix of it |
| Rewrite.CaptureVerbKept | chess-board/src/components/VoiceControl.tsx:241-243 | a capture verb passes the piece-name pass unchanged |
| Rewrite.CaptureVerbReplaced | chess-board/src/components/VoiceControl.tsx:250 | a capture verb, in any case, becomes "x" |
| Rewrite.PieceLetterPass | chess-board/src/components/VoiceControl.tsx:263 | the pass `/([bnrqk])/gi` upper-cases exactly the piece letters and keeps every other character |
| Rewrite.FileRankPass | chess-board/src/components/VoiceControl.tsx:264 | the pass `/([a-h])([1-8])/gi` lower-cases the file letter of every square and nothing else |
| Normalizer.Normalize | chess-board/src/components/VoiceControl.tsx:182-274 | the handler without its second piece-name pass, as a function from the command to its outcome (refused as direct SAN, unparseable, or a SAN token); it has no ensures of its own, and what it computes is stated by the DirectSanRefused, OutcomeShape, TokenCaseShaped and SpokenMoves rows |
| Normalizer.NormalizeAsWritten | chess-board/src/components/VoiceControl.tsx:182-274 | the handler as written, which throws where the second pass matches; no ensures of its own: AsWrittenAgrees and AsWrittenThrows relate it to Normalize |
| Normalizer.DirectSanRefused | chess-board/src/components/VoiceControl.tsx:183-189 | a command is refused as direct SAN exactly when, trimmed, it is a piece letter, a file letter and a rank digit in any case, and the alert quotes it trimmed |
| Normalizer.OutcomeShape | chess-board/src/components/VoiceControl.tsx:266-273 | a token handed to the board is non-empty and trimmed, and an unparseable command is quoted as it was heard |
| Normalizer.TokenCaseShaped | chess-board/src/components/VoiceControl.tsx:259-266 | in every token handed to the board, the file letter of each square is a lower-case `a`–`h` and every other piece letter is upper case |
| Normalizer.CanonicalShaped | chess-board/src/components/VoiceControl.tsx:263-264 | after the two case passes, any text has that case shape |
| Normalizer.TrimShaped | chess-board/src/components/VoiceControl.tsx:266 | trimming keeps the case shape |
| Normalizer.AsWrittenAgrees | chess-board/src/components/VoiceControl.tsx:241-248 | wherever the handler as written does not throw, it gives what the handler without the second pass gives |
| Normalizer.CrashingFirstPass | chess-board/src/components/VoiceControl.tsx:241-243 | the first piece-name pass turns "kingönig" into "K" followed by "önig" |
| Normalizer.SecondPassMatches | chess-board/src/components/VoiceControl.tsx:246-248 | the second pass finds "könig" in "König", so its callback runs |
| Normalizer.AsWrittenThrows | chess-board/src/components/VoiceControl.tsx:246-248 | on "kingönig" the handler as written reaches the undeclared `pieceMap` and throws |
| SpokenMoves.NotMovePrefixed | chess-board/src/components/VoiceControl.tsx:191 | a command that starts with a piece name and whitespace does not start with "move " |
| SpokenMoves.JoinPieceSquare | chess-board/src/components/VoiceControl.tsx:259 | "N f3" becomes "Nf3" |
| SpokenMoves.NoJoinBeforeCapture | chess-board/src/components/VoiceControl.tsx:259 | "N x e5" is left for the capture pass |
| SpokenMoves.JoinCapture | chess-board/src/components/VoiceControl.tsx:260 | "N x e5" becomes "Nxe5" |
| SpokenMoves.PawnCaptureNotMarked | chess-board/src/components/VoiceControl.tsx:260 | " x e5", which a pawn capture leaves, has no piece letter and is not joined |
| SpokenMoves.CaseCanonical | chess-board/src/components/VoiceControl.tsx:263-264 | on a piece-letter prefix followed by a square, the file letter comes out lower case and the prefix is kept |
| SpokenMoves.PieceToSquare | chess-board/src/components/VoiceControl.tsx:183-273 | "<piece> <square>", in any case, gives the piece's SAN letter (none for a pawn) and the square with its file lower-cased, e.g. "knight f3" gives "Nf3" and "pawn E4" gives "e4" |
| SpokenMoves.PieceTakesSquare | chess-board/src/components/VoiceControl.tsx:183-273 | "<piece> <verb> <square>" gives letter, "x" and square, e.g. "rook takes b4" gives "Rxb4"; for a pawn it gives "x", the whitespace and the square |
| SpokenMoves.AccentedBishop | chess-board/src/components/VoiceControl.tsx:183-273 | "Läufer e4", with the name in any case ("LÄUFER e4"), gives "Be4" |
| SpokenMoves.AccentedQueen | chess-board/src/components/VoiceControl.tsx:183-273 | "Königin d1", with the name in any case, gives "Qd1" |
| SpokenMoves.AccentedPawn | chess-board/src/components/VoiceControl.tsx:183-273 | "peão e4", with the name in any case ("PEÃO e4"), gives "e4" |
| SpokenMoves.CastleTokenKept | chess-board/src/components/VoiceControl.tsx:259-266 | "O-O" and "O-O-O" pass the shaping passes and the trim unchanged |
| SpokenMoves.KingsideCastling | chess-board/src/components/VoiceControl.tsx:253-254 | a command containing "king castle kingside", in any case, gives exactly "O-O" |
| SpokenMoves.QueensideCastling | chess-board/src/components/VoiceControl.tsx:255-256 | otherwise, a command containing "king castle queenside" gives exactly "O-O-O" |
| SpokenMoves.PhraseAfterMoveWord | chess-board/src/components/VoiceControl.tsx:253-257 | a castling phrase occurs in "move " + x exactly when it occurs in x |
| SpokenMoves.MoveWordIgnored | chess-board/src/components/VoiceControl.tsx:183-193 | a leading "move " changes the outcome only in the text an unparseable alert quotes, provided the rest, trimmed, is not empty, not direct SAN and does not start with "move " again; in those three cases the outcome does change: "move Nf3" is not refused (MoveWordPassesSanRefusal), "move move e4" is stripped only once, and "move " followed by whitespace alone trims to "move", which is not stripped and is handed on to the later passes |
| SpokenMoves.MoveWordPassesSanRefusal | chess-board/src/components/VoiceControl.tsx:183-193 | the direct-SAN refusal looks at the command before "move " is dropped: "Nf3" is refused, "move Nf3" is not |
| SpokenMoves.PhraseInTrim | chess-board/src/components/VoiceControl.tsx:253-257 | a castling phrase occurs in a text exactly when it occurs in the trimmed text |
| SpokenMoves.TrimmedBeforeHandling | chess-board/src/components/VoiceControl.tsx:81-86 | `onresult` trimming the transcript before the handler trims it again changes only the command an unparseable alert quotes |
| Listening.Recognizer.constructor | chess-board/src/components/VoiceControl.tsx:45-134 | the mount effect alone: without the API only the unsupported message is set; with it, the recognition is started when listening, and the flags say whether the start worked |
| Listening.Recognizer.TryStart | chess-board/src/components/VoiceControl.tsx:115-120 | a `start()` call is logged, and `isRecognizing` is set only when it does not throw |
| Listening.Recognizer.StopRunning | chess-board/src/components/VoiceControl.tsx:176-177 | a `stop()` of a running recognition is logged and clears `isRecognizing` |
| Listening.Recognizer.OnResult | chess-board/src/components/VoiceControl.tsx:80-88 | the trimmed transcript is shown, the message and the mic-error flag are cleared, and the handler's outcome on the trimmed text is returned; nothing else changes |
| Listening.Recognizer.OnError | chess-board/src/components/VoiceControl.tsx:90-106 | only "not-allowed" and "permission-denied" set the mic-error flag; every error sets its message and clears `isRecognizing` |
| Listening.Recognizer.OnEnd | chess-board/src/components/VoiceControl.tsx:109-122 | `isRecognizing` is cleared, and recognition is restarted exactly when listening is on and the mic-error flag is clear |
| Listening.Recognizer.ListeningChanged | chess-board/src/components/VoiceControl.tsx:162-180 | the flag follows the prop; turning on starts a recognition only when none is running; turning off stops a running one |
| Listening.Recognizer.Teardown | chess-board/src/components/VoiceControl.tsx:136-141 | a running recognition is stopped and `isRecognizing` ends false |
| Listening.Mount | chess-board/src/components/VoiceControl.tsx:40-180 | mounting runs the mount effect and then the `listening` effect: when listening with the API, a first `start()` that throws is followed by a second one, and recognition runs when either works |
| Listening.EndAfterTeardown | chess-board/src/components/VoiceControl.tsx:108-141 | after teardown the end event that `stop()` brings finds `onend` still attached and `listeningRef` still on, and starts recognition again |
| Listening.Recognizer.PermissionQueried | chess-board/src/components/VoiceControl.tsx:51-59 | a denied microphone at mount sets the permission message; any other answer leaves the message |
| Listening.Recognizer.PermissionChanged | chess-board/src/components/VoiceControl.tsx:60-68 | a later change to denied sets the permission message, and any other change clears it |
| Listening.Recognizer.MicrophoneRefused | chess-board/src/components/VoiceControl.tsx:153-158 | a refused microphone prompt sets its message and touches neither flag |
| Listening.StartKeepsOrder | chess-board/src/components/VoiceControl.tsx:162-173 | a `start()` keeps every logged `stop()` directly after a `start()` |
| Listening.StopKeepsOrder | chess-board/src/components/VoiceControl.tsx:174-178 | a `stop()` made right after a `start()` keeps that order |
| Listening.NoDoubleStop | chess-board/src/components/VoiceControl.tsx:136-178 | no two `stop()` calls are ever made in a row |
| Rules.Game.Move | chess-board/src/components/ChessBoard.tsx:98-100 | the engine logs the request and returns its answer; an accepted move is appended to its plies |
| Rules.Game.Undo | chess-board/src/components/ChessBoard.tsx:123-136 | `undo()` answers false exactly when no ply remains, and otherwise takes back the last one |
| Rules.Game.Reset | chess-board/src/components/ChessBoard.tsx:46 | `reset()` leaves no plies |
| Session.ChessSession.constructor | chess-board/src/components/ChessBoard.tsx:14-23 | the initial state: no selection, no destinations, empty history, no marker or message, listening on |
| Session.ChessSession.HandleSquareClick | chess-board/src/components/ChessBoard.tsx:55-86 | with a selection, every click ends it and clears the destinations, and submits a queen-promoting move from the selected square only when the clicked square is a cached destination; an accepted move appends its SAN, passes the turn, sets and marks the last move and picks the message; with nothing selected, only a piece of the side to move is selected, with its destinations |
| Session.ChessSession.AttemptMove | chess-board/src/components/ChessBoard.tsx:94-121 | the request is origin-destination when a non-empty destination is given and SAN otherwise; an accepted move is recorded like a click move and passes the turn; a refused one returns the "Illegal move" alert and changes neither history nor marker; the selection is cleared either way |
| Session.ChessSession.UndoLastMove | chess-board/src/components/ChessBoard.tsx:123-133 | with a history, exactly the last entry and the last ply go, the side to move changes back, and the marks and message are cleared; without one, nothing changes |
| Session.MoveThenUndo | chess-board/src/components/ChessBoard.tsx:94-133 | an accepted `attemptMove` followed by `undoLastMove` gives back the history, the engine's plies and the side to move as they were |
| Session.ChessSession.UndoAllMoves | chess-board/src/components/ChessBoard.tsx:135-143 | the loop calls `undo()` until the engine refuses; then history and plies are empty and the marks and message are cleared |
| Session.ChessSession.HandleRestart | chess-board/src/components/ChessBoard.tsx:45-53 | the engine is reset, and the history, marks and message are cleared |
| Session.ChessSession.CloseGameOver | chess-board/src/components/ChessBoard.tsx:150 | closing the dialog clears only the message |
| Session.ChessSession.SetListening | chess-board/src/components/ChessBoard.tsx:36-37 | starting or stopping listening sets only the flag |
| Session.ChessSession.CanUndo | chess-board/src/components/ChessBoard.tsx:178 | `canUndo`, the history is non-empty; no ensures of its own: CanUndoMeansPlies ties it to the engine |
| Session.CanUndoMeansPlies | chess-board/src/components/ChessBoard.tsx:178 | the undo buttons are enabled exactly when the engine has a ply to take back |
| Session.CheckmateNamesMover | chess-board/src/components/ChessBoard.tsx:69-71 | the checkmate message names the side that made the last ply |
| Session.VerdictMessage | chess-board/src/components/ChessBoard.tsx:69-76 | the message after an accepted move, checkmate before stalemate before insufficient material, otherwise the old message; no ensures of its own: the HandleSquareClick and AttemptMove rows use it and CheckmateNamesMover states whom it names |
| Session.ChessSession.IsLastMoveSquare | chess-board/src/components/ChessBoard.tsx:88-92 | `isLastMoveSquare`: the square's name is the last move's origin or destination, and nothing is marked without a last move; no ensures of its own: LastMoveMarks states which board squares it marks |
| Session.LastMoveMarks | chess-board/src/components/ChessBoard.tsx:88-92 | with a last move, exactly its two squares of the board are marked |
| Utils.ToSquare | chess-board/src/components/utils.ts:22-25 | `toSquare`: for a column of the board, the file letter followed by the decimal text of 8 − row; for a column off it, NaN (written "NaN"); its ensures gives only a length of at least two, and SquareShape, FromToSquare, ToFromSquare, ToSquareInjective, ToSquareOnto and OffBoardName carry its properties |
| Utils.SquareShape | chess-board/src/components/utils.ts:22-25 | on the board, a square name is the column's file letter followed by the digit 8 − row |
| Utils.Corners | chess-board/src/components/utils.ts:24 | (7, 0) is "a1", (0, 7) is "h8", (0, 0) is "a8" and (7, 7) is "h1" |
| Utils.FromToSquare | chess-board/src/components/utils.ts:22-25 | reading a name back gives the coordinates it was made from |
| Utils.ToFromSquare | chess-board/src/components/utils.ts:22-25 | every square name is the name of the coordinates read from it |
| Utils.ToSquareInjective | chess-board/src/components/utils.ts:22-25 | distinct squares of the board get distinct names |
| Utils.ToSquareOnto | chess-board/src/components/utils.ts:22-25 | every one of the 64 names is reached from the board |
| Utils.OffBoardName | chess-board/src/components/utils.ts:22-25 | coordinates off the board never give a square name |
| Utils.GetPieceFilename | chess-board/src/components/utils.ts:1-20 | `getPieceFilename`: in "mono", the table entry of a listed code, otherwise the code itself; no ensures of its own: MonoKeys, MonoFilename, MonoOtherCode and MonoInjective carry its properties |
| Utils.MonoKeys | chess-board/src/components/utils.ts:3-16 | the mono table covers exactly the twelve colour-and-type codes |
| Utils.MonoFilename | chess-board/src/components/utils.ts:3-17 | in "mono" a code becomes its type letter, upper case for white and lower case for black |
| Utils.MonoOtherCode | chess-board/src/components/utils.ts:17 | in "mono" a code outside the table is its own file name |
| Utils.MonoInjective | chess-board/src/components/utils.ts:3-16 | distinct piece codes get distinct mono file names |
| Utils.MonoNamesShared | chess-board/src/components/utils.ts:1-20 | file names do not separate codes from other text: the mono name of every piece code is a single letter, no code itself, and that letter is its own mono name ("wp" and "P" share "P") |
| BoardView.LocalToSquare | chess-board/src/components/Board.tsx:86-89 | the local `toSquare` of the board, written like the one in utils.ts (NaN, written "NaN", for a column off the board); no ensures of its own: LegalMarks states what the legal mark built on it means |
| BoardView.RenderSquare | chess-board/src/components/Board.tsx:43-62 | the values one square is drawn from: colour, selection, legal and last-move marks, the piece code as `alt` and the image path; no ensures of its own: RenderedSquare states them for every square of the board |
| BoardView.DarkByName | chess-board/src/components/Board.tsx:43 | a square is dark exactly when its file number and rank number add up to an even number |
| BoardView.CornerColours | chess-board/src/components/Board.tsx:43 | a1 is dark and h1 is light |
| BoardView.Alternating | chess-board/src/components/Board.tsx:43 | neighbouring squares differ in colour |
| BoardView.OneSelected | chess-board/src/components/Board.tsx:44 | at most one square is marked selected, and it is the selected one |
| BoardView.LegalMarks | chess-board/src/components/Board.tsx:45-46 | a square is marked legal exactly when one of the cached names names it |
| BoardView.PieceCodeShape | chess-board/src/components/Board.tsx:48 | a piece's code is a colour letter and a type letter, a code of the mono table |
| BoardView.PieceCodeInjective | chess-board/src/components/Board.tsx:48 | different pieces have different codes |
| BoardView.ImageShown | chess-board/src/components/Board.tsx:48-61 | a square shows an image exactly when it holds a piece; in "mono" the image is the piece's type letter |
| BoardView.Render | chess-board/src/components/Board.tsx:41-42 | the render has one row per board row and one square per board square |
| BoardView.RenderedSquare | chess-board/src/components/Board.tsx:41-62 | at each square of the board the render is dark exactly when the file and rank numbers add up to an even number, selected exactly when it is the selection, marked legal exactly when a cached destination name reads back to it, marked as last move as the controller says, and shows an image (and a non-empty `alt`) exactly when it holds a piece, in "mono" the piece's letter |
| BoardView.LabelsMatchSquares | chess-board/src/components/Board.tsx:15-16 | each rank label is the digit its row's squares end in, and each file label the letter its column's squares start with |
| MoveHistory.Chunks | chess-board/src/components/MoveHistory.tsx:13-19 | the reference pairing of the history into rows of two, by recursion; no ensures of its own: ChunkCount, ChunkRow, MissingSecond, FlattenChunks and ChunksAppend carry its properties, and ChunkMoves proves the loop equal to it |
| MoveHistory.ChunkMoves | chess-board/src/components/MoveHistory.tsx:13-19 | the `for` loop two moves at a time builds exactly the rows of the reference pairing |
| MoveHistory.ChunkCount | chess-board/src/components/MoveHistory.tsx:13-19 | n moves give ceil(n / 2) rows, so an empty history gives none |
| MoveHistory.ChunkRow | chess-board/src/components/MoveHistory.tsx:15-17 | row k holds move 2k and, when there is one, move 2k + 1 |
| MoveHistory.MissingSecond | chess-board/src/components/MoveHistory.tsx:15-17 | a row lacks its second entry exactly when it is the last row of an odd-length history |
| MoveHistory.FlattenChunks | chess-board/src/components/MoveHistory.tsx:13-19 | reading the rows back, skipping missing entries, gives the history |
| MoveHistory.ChunksAppend | chess-board/src/components/MoveHistory.tsx:13-19 | appending a move either completes the last row or opens a new one, and the earlier rows stay |
| MoveHistory.RowTexts | chess-board/src/components/MoveHistory.tsx:43-45 | the label and the two cells of each row (`idx + 1`, `pair[0] || ""`, `pair[1] || ""`); no ensures of its own: MoveShown states what the list shows |
| MoveHistory.MoveShown | chess-board/src/components/MoveHistory.tsx:43-45 | the list has one row per pair of moves; move k is shown in row k / 2 + 1, in the white cell when k is even and in the black cell otherwise; after an odd-length history the last row's black cell is empty |
| MoveHistory.IsAtBottom | chess-board/src/components/MoveHistory.tsx:30 | the bottom test `scrollHeight - scrollTop - clientHeight < 5`; no ensures of its own: HandleScroll and FollowingStays use it |
| MoveHistory.ScrollTracker.HandleScroll | chess-board/src/components/MoveHistory.tsx:27-32 | without a list element nothing changes; otherwise the flag is set exactly when the view is within 5 pixels of the bottom |
| MoveHistory.FollowingStays | chess-board/src/components/MoveHistory.tsx:21-32 | after the list has scrolled to the bottom, the next scroll event keeps following |

## Left out

- The speech API, the Permissions API and `getUserMedia` are foreign calls.
  - Their answers are parameters: whether the API exists, whether `start()` throws, the permission state, and a refused prompt.
  - The recognition language and options (`VoiceControl.tsx:76-78`) have no effect on the model.
- `alert`, `console.*`, the rendered status lines and the button are left out. Failures and messages are returned values or fields.
- The rules of chess (`../game/Chess.ts` is not part of this model).
  - Legality, the piece on a square, the destinations of a piece and the three game endings are the engine's answers, passed to each handler.
  - `Rules.TurnAfter` assumes the standard start position, with White to move.
- `board`/`setBoard` snapshots, the style list fetch, the cookie, and the style selector state (`ChessBoard.tsx:14, 19-21, 25-43`). These are I/O and presentation.
- The GameOverModal, StyleSelector, StyleSelectorControl and UndoControls components. They only render, so only their callbacks are modelled.
- The DOM scrolling effect of the move list (`MoveHistory.tsx:21-25`).
  - It is stated only through `MoveHistory.Clamp` and `MoveHistory.FollowingStays`.
  - Scroll metrics are whole numbers, so fractional pixels are not modelled.
- React scheduling is not modelled. Each handler is one atomic update, and the `setMoveHistory` updater functions are applied at once.
- Case-insensitive matching folds ASCII and the Latin-1 capitals À–Þ (not ×), which is what `toLowerCase` and the `i` flag do there. Other Unicode case mappings are not modelled.
- Lookups in `synonymMap` and the mono table do not see inherited object keys such as "constructor".
- Listening.Recognizer.ListeningChanged: as in the code, the listening effect does not consult the mic-error flag. A permission error stops only the automatic restart in `onend`; it does not stop a start after the prop is turned on again.
- SpokenMoves.PieceToSquare and SpokenMoves.PieceTakesSquare cover one whitespace character between words and commands shorter than the castling phrases; the piece names and verbs may be in any case, accented ones included. Other spacing is described generally by `Rewrite.SplitAtSpace` and the shaping-pass lemmas, not end to end.
- Utils.ToSquare and BoardView.LocalToSquare: for a column off the board, the source returns the number NaN (`undefined + (8 - row)`). The model returns its text "NaN". Unlike the number, that text would equal the string "NaN" under `===`; the board and the controller only pass on-board coordinates, where the two agree.
- Listening.Recognizer.Teardown: as in the code, the cleanup neither detaches `onend` nor clears `listeningRef`, so the end event that follows its `stop()` starts recognition again (`Listening.EndAfterTeardown`). The model keeps this behaviour and does not propose a corrected cleanup.

## Findings

| source | as written | input that shows it | evidently intended | confidence | as-written member | corrected member |
|---|---|---|---|---|---|---|
| chess-board/src/components/VoiceControl.tsx:246-248 | a second piece-name pass calls `pieceMap[...]`, an identifier that is declared nowhere in the file (the `pieceMap` of utils.ts is local to `getPieceFilename`), so the callback throws a ReferenceError whenever the pattern matches after the first pass | "kingönig": the first pass makes it "König", in which the second pass finds "könig" | the second pass is a leftover that should do nothing | not executed | Normalizer.AsWrittenThrows | Normalizer.AsWrittenAgrees |

`Normalizer.NormalizeAsWritten` models the handler as written. `Normalizer.Normalize`, which the rest of the model uses, leaves the second pass out. Two points of the handler are easy to misread:

- The piece-name pass uses ordered alternation, not longest match. Because both ends are anchored with `\b`, the result is the same for the table's words.
- The castling override tests the command as it was received, not the trimmed text without "move ". `SpokenMoves.PhraseInTrim` and `SpokenMoves.PhraseAfterMoveWord` show that this makes no difference.
