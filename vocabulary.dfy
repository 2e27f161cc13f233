/** The closed vocabulary of the voice grammar (`synonymMap` and the capture
    verbs of chess-board/src/components/VoiceControl.tsx) and the SAN
    character classes its regular expressions use, all under the `i` flag. */
module Vocabulary {
  import opened Text

  /** `synonymMap`: every spoken piece name to its SAN piece letter, the
      pawn names to the empty string (SAN omits the pawn letter). */
  const SynonymMap: map<string, string> := map[
    "knight" := "N", "night" := "N", "cavalo" := "N", "caballo" := "N", "cheval" := "N", "pferd" := "N",
    "bishop" := "B", "bispo" := "B", "alfil" := "B", "fou" := "B", "l\U{E4}ufer" := "B",
    "rook" := "R", "torre" := "R", "tour" := "R", "turm" := "R",
    "queen" := "Q", "dama" := "Q", "reine" := "Q", "k\U{F6}nigin" := "Q",
    "king" := "K", "rei" := "K", "rey" := "K", "roi" := "K", "k\U{F6}nig" := "K",
    "pawn" := "", "pe\U{E3}o" := "", "peon" := "", "pion" := ""]

  /** `Object.keys(synonymMap)`: the keys in insertion order, which is the order
      of the alternatives in the piece-name pattern. */
  const PieceNames: seq<string> := [
    "knight", "night", "cavalo", "caballo", "cheval", "pferd",
    "bishop", "bispo", "alfil", "fou", "l\U{E4}ufer",
    "rook", "torre", "tour", "turm",
    "queen", "dama", "reine", "k\U{F6}nigin",
    "king", "rei", "rey", "roi", "k\U{F6}nig",
    "pawn", "pe\U{E3}o", "peon", "pion"]

  /** The alternatives of `/\b(takes|take|capture|captures|captura|prende|nimmt)\b/gi`. */
  const CaptureVerbs: seq<string> := ["takes", "take", "capture", "captures", "captura", "prende", "nimmt"]

  /** The two whole-phrase castling commands. */
  const KingsideCastle: string := "king castle kingside"
  const QueensideCastle: string := "king castle queenside"

  /** The replacement for a matched word: `table[match.toLowerCase()] || ""`. */
  function LookupFragment(table: map<string, string>, matched: string): string {
    var key := LowerString(matched);
    if key in table then table[key] else ""
  }

  /** `[BNRQK]` (equally `[bnrqk]`) under the `i` flag. */
  predicate IsPieceLetter(c: char) {
    var l := Lower(c);
    l == 'b' || l == 'n' || l == 'r' || l == 'q' || l == 'k'
  }

  /** `[a-h]` under the `i` flag. */
  predicate IsFileLetter(c: char) {
    'a' <= Lower(c) <= 'h'
  }

  /** `[1-8]`. */
  predicate IsRankDigit(c: char) {
    '1' <= c <= '8'
  }

  /** The shape of a table word the rewriting lemmas rely on. */
  predicate WellFormedKey(w: string) {
    w != [] && SpaceFree(w) && NoUpper(w) && IsLower(w[0]) && IsLower(w[|w| - 1])
  }

  /** The characters the table words are written in. */
  predicate KeyChar(c: char) {
    IsLower(c) || c == '\U{E4}' || c == '\U{F6}' || c == '\U{E3}'
  }

  predicate KeyWord(w: string) {
    w != [] && IsLower(w[0]) && IsLower(w[|w| - 1]) && forall j | 0 <= j < |w| :: KeyChar(w[j])
  }

  lemma KeyWordWellFormed(w: string)
    requires KeyWord(w)
    ensures WellFormedKey(w)
  {
  }

  lemma PieceNameInTable(i: nat)
    requires i < |PieceNames|
    ensures PieceNames[i] in SynonymMap
  {
  }

  lemma PieceNameIsKeyWord(i: nat)
    requires i < |PieceNames|
    ensures KeyWord(PieceNames[i])
  {
  }

  lemma PieceNameLength(i: nat)
    requires i < |PieceNames|
    ensures 3 <= |PieceNames[i]| <= 7
  {
  }

  /** The spoken piece names are three to seven characters long. */
  lemma TableWordLength(w: string)
    requires w in SynonymMap
    ensures 3 <= |w| <= 7
  {
    PieceNamesAreTheKeys(w);
    var i :| 0 <= i < |PieceNames| && PieceNames[i] == w;
    PieceNameLength(i);
  }

  /** The alternatives of the piece-name pattern are exactly the table's keys,
      and each is a non-empty lower-case word without whitespace. */
  lemma PieceNameAt(i: nat)
    requires i < |PieceNames|
    ensures PieceNames[i] in SynonymMap && WellFormedKey(PieceNames[i])
  {
    PieceNameInTable(i);
    PieceNameIsKeyWord(i);
    KeyWordWellFormed(PieceNames[i]);
  }

  lemma PieceNamesAreTheKeys(w: string)
    ensures w in SynonymMap <==> w in PieceNames
  {
    if w in PieceNames {
      var i :| 0 <= i < |PieceNames| && PieceNames[i] == w;
      PieceNameInTable(i);
    }
  }

  lemma PieceNameWellFormed(w: string)
    requires w in SynonymMap
    ensures WellFormedKey(w)
  {
    PieceNamesAreTheKeys(w);
    var i :| 0 <= i < |PieceNames| && PieceNames[i] == w;
    PieceNameAt(i);
  }

  lemma CaptureVerbIsWord(i: nat)
    requires i < |CaptureVerbs|
    ensures KeyWord(CaptureVerbs[i]) && AllWordChars(CaptureVerbs[i])
  {
  }

  lemma CaptureVerbNotInTable(i: nat)
    requires i < |CaptureVerbs|
    ensures CaptureVerbs[i] !in SynonymMap
  {
  }

  lemma CaptureVerbAt(i: nat)
    requires i < |CaptureVerbs|
    ensures WellFormedKey(CaptureVerbs[i]) && AllWordChars(CaptureVerbs[i])
    ensures CaptureVerbs[i] !in SynonymMap
    ensures 4 <= |CaptureVerbs[i]| <= 8
  {
    CaptureVerbIsWord(i);
    CaptureVerbNotInTable(i);
    KeyWordWellFormed(CaptureVerbs[i]);
  }

  /** `a` is a prefix of `b` (or equal to it). */
  predicate IsPrefixOf(a: string, b: string) {
    |a| <= |b| && a == b[..|a|]
  }

  /** No alternative is a prefix of one listed after it. */
  predicate PrefixOrdered(keys: seq<string>) {
    forall j, i | 0 <= j < i < |keys| :: !IsPrefixOf(keys[j], keys[i])
  }

  lemma PieceNameNoEarlierPrefix(i: nat, j: nat)
    requires j < i < |PieceNames|
    ensures !IsPrefixOf(PieceNames[j], PieceNames[i])
  {
    var a, b := PieceNames[j], PieceNames[i];
    PieceNameLength(i);
    PieceNameLength(j);
    assert |a| > |b| || a[0] != b[0] || a[1] != b[1] || a[2] != b[2];
    if |a| <= |b| {
      assert b[..|a|][0] == b[0] && b[..|a|][1] == b[1] && b[..|a|][2] == b[2];
    }
  }

  /** The piece names are listed so that none is a prefix of a later one
      ("k\U{F6}nigin" comes before "k\U{F6}nig", "reine" before "rei"). */
  lemma PieceNamesPrefixOrdered()
    ensures PrefixOrdered(PieceNames)
  {
    forall j, i | 0 <= j < i < |PieceNames| ensures !IsPrefixOf(PieceNames[j], PieceNames[i]) {
      PieceNameNoEarlierPrefix(i, j);
    }
  }

  lemma PieceNameInitial(i: nat)
    requires i < |PieceNames|
    ensures PieceNames[i][0] != 'm'
  {
  }

  /** A piece name as heard, in any case (the accented ones included): it
      begins and ends with an ASCII letter, holds no whitespace and does not
      begin with "m". */
  lemma HeardPieceName(u: string)
    requires LowerString(u) in SynonymMap
    ensures 3 <= |u| <= 7 && IsWordChar(u[0]) && IsWordChar(u[|u| - 1]) && SpaceFree(u)
    ensures Lower(u[0]) != 'm'
  {
    var w := LowerString(u);
    PieceNamesAreTheKeys(w);
    var i :| 0 <= i < |PieceNames| && PieceNames[i] == w;
    PieceNameAt(i);
    PieceNameLength(i);
    PieceNameInitial(i);
    LowerWordChar(u[0]);
    LowerWordChar(u[|u| - 1]);
    forall x | 0 <= x < |u| ensures !IsSpace(u[x]) {
      LowerKeepsSpace(u[x]);
      assert Lower(u[x]) == w[x];
    }
  }

  /** A capture verb as heard, in any case, is a run of word characters. */
  lemma HeardCaptureVerb(v: string)
    requires LowerString(v) in CaptureVerbs
    ensures AllWordChars(v) && 4 <= |v| <= 8
  {
    var i :| 0 <= i < |CaptureVerbs| && CaptureVerbs[i] == LowerString(v);
    CaptureVerbAt(i);
    forall x | 0 <= x < |v| ensures IsWordChar(v[x]) {
      assert Lower(v[x]) == CaptureVerbs[i][x];
      LowerWordChar(v[x]);
    }
  }

  /** Every fragment is a SAN piece letter or the empty pawn fragment. */
  lemma FragmentRange(w: string)
    requires w in SynonymMap
    ensures SynonymMap[w] in {"N", "B", "R", "Q", "K", ""} && |SynonymMap[w]| <= 1
    ensures SynonymMap[w] != "" ==> IsPieceLetter(SynonymMap[w][0]) && IsUpper(SynonymMap[w][0])
  {
  }
}
