/** Character classes and string helpers with JavaScript's meaning:
    `\s` and `String.prototype.trim`, `\b` without the `u` flag, and the
    case-insensitive (`i`) matching of letters. */
module Text {

  /** JavaScript's `\s`, which is also the set `trim` removes: the
      WhiteSpace and LineTerminator code points of ECMA-262. */
  predicate IsSpace(c: char) {
    || c == '\t' || c == '\n' || c == '\U{B}' || c == '\U{C}' || c == '\r' || c == ' '
    || c == '\U{A0}' || c == '\U{1680}' || ('\U{2000}' <= c <= '\U{200A}')
    || c == '\U{2028}' || c == '\U{2029}' || c == '\U{202F}' || c == '\U{205F}'
    || c == '\U{3000}' || c == '\U{FEFF}'
  }

  predicate AllSpace(s: string) {
    forall i | 0 <= i < |s| :: IsSpace(s[i])
  }

  predicate SpaceFree(s: string) {
    forall i | 0 <= i < |s| :: !IsSpace(s[i])
  }

  /** The index of the first non-whitespace character from `i` on (`|s|`
      when there is none). */
  function LeadFrom(s: string, i: nat): (n: nat)
    requires i <= |s|
    ensures i <= n <= |s| && (n == |s| || !IsSpace(s[n]))
    decreases |s| - i
  {
    if i < |s| && IsSpace(s[i]) then LeadFrom(s, i + 1) else i
  }

  /** The index just after the last non-whitespace character before `j`,
      looking no further back than `lo`. */
  function EndFrom(s: string, j: nat, lo: nat): (m: nat)
    requires lo <= j <= |s|
    ensures lo <= m <= j && (m == lo || !IsSpace(s[m - 1]))
    decreases j
  {
    if j > lo && IsSpace(s[j - 1]) then EndFrom(s, j - 1, lo) else j
  }

  /** How much leading whitespace `trim` drops. */
  function Lead(s: string): (n: nat)
    ensures n <= |s| && (n == |s| || !IsSpace(s[n]))
  {
    LeadFrom(s, 0)
  }

  /** `String.prototype.trim`: the text between the leading and the trailing
      whitespace. */
  function Trim(s: string): (r: string)
    ensures Lead(s) + |r| <= |s| && r == s[Lead(s)..Lead(s) + |r|]
    ensures r == [] || (!IsSpace(r[0]) && !IsSpace(r[|r| - 1]))
  {
    s[Lead(s)..EndFrom(s, |s|, Lead(s))]
  }

  lemma {:induction false} LeadFromSpaces(s: string, i: nat)
    requires i <= |s|
    ensures forall k | i <= k < LeadFrom(s, i) :: IsSpace(s[k])
    decreases |s| - i
  {
    if i < |s| && IsSpace(s[i]) {
      LeadFromSpaces(s, i + 1);
    }
  }

  lemma {:induction false} EndFromSpaces(s: string, j: nat, lo: nat)
    requires lo <= j <= |s|
    ensures forall k | EndFrom(s, j, lo) <= k < j :: IsSpace(s[k])
    decreases j
  {
    if j > lo && IsSpace(s[j - 1]) {
      EndFromSpaces(s, j - 1, lo);
    }
  }

  /** Over a run of whitespace ending at `k` (before a non-whitespace
      character or the end), the leading scan stops at `k`. */
  lemma {:induction false} LeadFromOver(s: string, i: nat, k: nat)
    requires i <= k <= |s| && (k == |s| || !IsSpace(s[k]))
    requires forall x | i <= x < k :: IsSpace(s[x])
    ensures LeadFrom(s, i) == k
    decreases k - i
  {
    if i < k {
      LeadFromOver(s, i + 1, k);
    }
  }

  lemma {:induction false} EndFromOver(s: string, j: nat, m: nat, lo: nat)
    requires lo <= m <= j <= |s| && (m == lo || !IsSpace(s[m - 1]))
    requires forall x | m <= x < j :: IsSpace(s[x])
    ensures EndFrom(s, j, lo) == m
    decreases j - m
  {
    if m < j {
      EndFromOver(s, j - 1, m, lo);
    }
  }

  /** Trimming a string that has no whitespace at either end changes nothing. */
  lemma TrimOfTrimmed(s: string)
    requires s == [] || (!IsSpace(s[0]) && !IsSpace(s[|s| - 1]))
    ensures Trim(s) == s
  {
  }

  lemma TrimAllSpace(s: string)
    requires AllSpace(s)
    ensures Trim(s) == []
  {
    LeadFromOver(s, 0, |s|);
  }

  /** Whitespace-free ends around text: `Trim` returns exactly that text. */
  lemma TrimUnique(p: string, r: string, q: string)
    requires AllSpace(p) && AllSpace(q)
    requires r == [] || (!IsSpace(r[0]) && !IsSpace(r[|r| - 1]))
    ensures Trim(p + r + q) == r
  {
    var s := p + r + q;
    if r == [] {
      assert forall x | 0 <= x < |s| :: IsSpace(s[x]) by {
        forall x | 0 <= x < |s| ensures IsSpace(s[x]) {
          if x < |p| { assert s[x] == p[x]; } else { assert s[x] == q[x - |p|]; }
        }
      }
      TrimAllSpace(s);
    } else {
      var a, b := |p|, |p| + |r|;
      assert s[a] == r[0] && s[b - 1] == r[|r| - 1];
      assert forall x | 0 <= x < a :: IsSpace(s[x]) by {
        forall x | 0 <= x < a ensures IsSpace(s[x]) {
          assert s[x] == p[x];
        }
      }
      assert forall x | b <= x < |s| :: IsSpace(s[x]) by {
        forall x | b <= x < |s| ensures IsSpace(s[x]) {
          assert s[x] == q[x - b];
        }
      }
      LeadFromOver(s, 0, a);
      EndFromOver(s, |s|, b, a);
      assert s[a..b] == r;
    }
  }

  /** A string is its leading whitespace, its trimmed text and its trailing
      whitespace. */
  lemma TrimSplit(s: string)
    ensures AllSpace(s[..Lead(s)]) && AllSpace(s[Lead(s) + |Trim(s)|..])
    ensures s == s[..Lead(s)] + Trim(s) + s[Lead(s) + |Trim(s)|..]
  {
    var i, r := Lead(s), Trim(s);
    TrimWindow(s);
    assert s == s[..i] + s[i..i + |r|] + s[i + |r|..];
  }

  /** Every character `Trim` drops is whitespace. */
  lemma TrimWindow(s: string)
    ensures forall j | 0 <= j < Lead(s) :: IsSpace(s[j])
    ensures forall j | Lead(s) + |Trim(s)| <= j < |s| :: IsSpace(s[j])
    ensures forall j | 0 <= j < |s| && !IsSpace(s[j]) :: Lead(s) <= j < Lead(s) + |Trim(s)|
  {
    LeadFromSpaces(s, 0);
    EndFromSpaces(s, |s|, Lead(s));
  }

  predicate IsUpper(c: char) { 'A' <= c <= 'Z' }

  predicate IsLower(c: char) { 'a' <= c <= 'z' }

  predicate IsDigit(c: char) { '0' <= c <= '9' }

  /** The capital letters of the Latin-1 Supplement (U+00C0 to U+00DE
      without the multiplication sign), among them the capitals of the
      accented letters of the vocabulary. */
  predicate IsLatinUpper(c: char) {
    '\U{C0}' <= c <= '\U{DE}' && c != '\U{D7}'
  }

  /** Lower-casing of ASCII and Latin-1 capitals; every other character is
      left as it is. On the characters the patterns contain this is the
      case folding of the `i` flag and of `toLowerCase`. */
  function Lower(c: char): char {
    if IsUpper(c) || IsLatinUpper(c) then (c as int + 32) as char else c
  }

  /** ASCII upper-casing; every other character is left as it is. */
  function Upper(c: char): char {
    if IsLower(c) then (c as int - 32) as char else c
  }

  function LowerString(s: string): (r: string)
    ensures |r| == |s| && forall i | 0 <= i < |s| :: r[i] == Lower(s[i])
  {
    seq(|s|, i requires 0 <= i < |s| => Lower(s[i]))
  }

  predicate NoUpper(s: string) {
    forall i | 0 <= i < |s| :: Lower(s[i]) == s[i]
  }

  /** Lower-casing changes nothing in a string without upper-case letters. */
  lemma LowerNoUpper(s: string)
    requires NoUpper(s)
    ensures LowerString(s) == s
  {
  }

  /** Lower-casing neither makes nor removes whitespace. */
  lemma LowerKeepsSpace(c: char)
    ensures IsSpace(Lower(c)) <==> IsSpace(c)
  {
  }

  /** A character that lower-cases to a word character is one: the Latin-1
      capitals lower-case to letters outside `[A-Za-z0-9_]`. */
  lemma LowerWordChar(c: char)
    requires IsWordChar(Lower(c))
    ensures IsWordChar(c)
  {
  }

  /** Equality under the `i` flag. */
  predicate EqualsIgnoreCase(a: string, b: string) {
    |a| == |b| && forall i | 0 <= i < |a| :: Lower(a[i]) == Lower(b[i])
  }

  predicate StartsWithIgnoreCase(s: string, prefix: string) {
    |prefix| <= |s| && EqualsIgnoreCase(s[..|prefix|], prefix)
  }

  /** `/phrase/i.test(s)` for a phrase without metacharacters. */
  predicate ContainsIgnoreCase(s: string, phrase: string) {
    exists i | 0 <= i <= |s| - |phrase| :: OccursAt(s, phrase, i)
  }

  predicate OccursAt(s: string, phrase: string, i: int)
    requires 0 <= i <= |s| - |phrase|
  {
    EqualsIgnoreCase(s[i..i + |phrase|], phrase)
  }

  /** The word characters of `\b` without the `u` flag: `[A-Za-z0-9_]`. */
  predicate IsWordChar(c: char) {
    IsUpper(c) || IsLower(c) || IsDigit(c) || c == '_'
  }

  /** Whether position `i` holds a word character; outside the string it does not. */
  predicate WordCharAt(s: string, i: int) {
    0 <= i < |s| && IsWordChar(s[i])
  }

  /** `\b` at position `i` (between `s[i-1]` and `s[i]`). */
  predicate IsBoundary(s: string, i: int) {
    WordCharAt(s, i - 1) != WordCharAt(s, i)
  }

  predicate AllWordChars(s: string) {
    forall i | 0 <= i < |s| :: IsWordChar(s[i])
  }
}
