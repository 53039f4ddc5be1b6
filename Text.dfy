/**
 * String utilities the rename planner relies on: prefixes and suffixes,
 * slash-separated import paths, decimal numerals, Go identifiers, the
 * ASCII word-boundary search used for doc comments, and quoting of
 * import-path literals. Characters stand for bytes: every offset below is
 * a byte offset into ASCII text.
 */
module Text {

  // ---------------------------------------------------------------------
  // Prefixes and suffixes (strings.HasPrefix, HasSuffix, TrimPrefix)
  // ---------------------------------------------------------------------

  predicate HasPrefix(s: string, p: string) {
    |p| <= |s| && s[..|p|] == p
  }

  predicate HasSuffix(s: string, p: string) {
    |p| <= |s| && s[|s| - |p|..] == p
  }

  /** strings.TrimPrefix: `s` without the leading `p`, or `s` itself. */
  function TrimPrefix(s: string, p: string): (r: string)
    ensures HasPrefix(s, p) ==> s == p + r
    ensures !HasPrefix(s, p) ==> r == s
  {
    if HasPrefix(s, p) then s[|p|..] else s
  }

  // ---------------------------------------------------------------------
  // Slash-separated paths (path.Dir, path.Join) on clean import paths
  // ---------------------------------------------------------------------

  /** Index of the last '/' in `p`, or -1 when there is none. */
  function LastSlash(p: string): (r: int)
    ensures -1 <= r < |p|
    ensures r >= 0 ==> p[r] == '/'
    ensures forall j :: r < j < |p| ==> p[j] != '/'
  {
    if |p| == 0 then -1
    else if p[|p| - 1] == '/' then |p| - 1
    else LastSlash(p[..|p| - 1])
  }

  /** path.Dir of a clean path: everything before the last slash. */
  function Dir(p: string): string {
    var i := LastSlash(p);
    if i < 0 then "." else if i == 0 then "/" else p[..i]
  }

  /** path.Join of a clean directory and one clean element. */
  function Join(dir: string, name: string): string {
    if name == "" then dir
    else if dir == "." then name
    else if dir == "/" then "/" + name
    else dir + "/" + name
  }

  // ---------------------------------------------------------------------
  // Characters, identifiers
  // ---------------------------------------------------------------------

  predicate IsLetter(c: char) {
    'a' <= c <= 'z' || 'A' <= c <= 'Z' || c == '_'
  }

  predicate IsDigit(c: char) {
    '0' <= c <= '9'
  }

  /** The class \w of Go's regexp syntax: [0-9A-Za-z_]. */
  predicate IsWordChar(c: char) {
    IsLetter(c) || IsDigit(c)
  }

  /** The 25 keywords of the Go language. */
  const Keywords: set<string> := {
    "break", "case", "chan", "const", "continue", "default", "defer", "else",
    "fallthrough", "for", "func", "go", "goto", "if", "import", "interface",
    "map", "package", "range", "return", "select", "struct", "switch", "type", "var"
  }

  /** No keyword contains a digit. */
  lemma KeywordsHaveNoDigits(k: string, i: nat)
    requires k in Keywords && i < |k|
    ensures !IsDigit(k[i])
  {
  }

  /**
   * isValidIdentifier: a letter followed by letters and digits, other than
   * the blank identifier `_` and the keywords (letters are ASCII letters
   * and '_').
   */
  predicate IsValidIdentifier(s: string) {
    && |s| > 0
    && s != "_"
    && IsLetter(s[0])
    && (forall i :: 0 <= i < |s| ==> IsWordChar(s[i]))
    && s !in Keywords
  }

  // ---------------------------------------------------------------------
  // Decimal numerals (fmt.Sprintf("%d", n) for n >= 0)
  // ---------------------------------------------------------------------

  function DigitChar(d: nat): (c: char)
    requires d < 10
    ensures IsDigit(c) && c as int - '0' as int == d
  {
    ('0' as int + d) as char
  }

  function DigitValue(c: char): (d: nat)
    requires IsDigit(c)
    ensures d < 10
  {
    c as int - '0' as int
  }

  predicate AllDigits(s: string) {
    forall i :: 0 <= i < |s| ==> IsDigit(s[i])
  }

  /** The decimal numeral of `n`, without leading zeros. */
  function Dec(n: nat): (s: string)
    ensures |s| > 0 && AllDigits(s)
    ensures |s| > 1 ==> s[0] != '0'
    decreases n
  {
    if n < 10 then [DigitChar(n)] else Dec(n / 10) + [DigitChar(n % 10)]
  }

  /** The value of a numeral (the inverse of Dec). */
  function ParseDec(s: string): nat
    requires AllDigits(s)
    decreases |s|
  {
    if |s| == 0 then 0 else ParseDec(s[..|s| - 1]) * 10 + DigitValue(s[|s| - 1])
  }

  lemma {:induction false} ParseDecOfDec(n: nat)
    ensures ParseDec(Dec(n)) == n
    decreases n
  {
    if n >= 10 {
      var s := Dec(n);
      assert s[..|s| - 1] == Dec(n / 10);
      ParseDecOfDec(n / 10);
    }
  }

  /** Different numbers have different numerals. */
  lemma DecInjective(a: nat, b: nat)
    requires Dec(a) == Dec(b)
    ensures a == b
  {
    ParseDecOfDec(a);
    ParseDecOfDec(b);
  }

  // ---------------------------------------------------------------------
  // Fresh local names: newName, newName1, newName2, ...
  // ---------------------------------------------------------------------

  /** The k-th name tried for a local package name. */
  function Candidate(name: string, k: nat): string {
    if k == 0 then name else name + Dec(k)
  }

  lemma CandidateInjective(name: string, j: nat, k: nat)
    requires Candidate(name, j) == Candidate(name, k)
    ensures j == k
  {
    if j != 0 && k != 0 {
      var a, b := name + Dec(j), name + Dec(k);
      assert Dec(j) == a[|name|..] && Dec(k) == b[|name|..];
      DecInjective(j, k);
    }
  }

  /** Every candidate beyond the first of a valid identifier is itself a valid identifier. */
  lemma {:induction false} CandidateIsIdentifier(name: string, k: nat)
    requires IsValidIdentifier(name)
    ensures IsValidIdentifier(Candidate(name, k))
  {
    if k > 0 {
      var c := name + Dec(k);
      assert forall i :: 0 <= i < |c| ==> IsWordChar(c[i]) by {
        forall i | 0 <= i < |c| ensures IsWordChar(c[i]) {
          if i >= |name| { assert c[i] == Dec(k)[i - |name|]; }
        }
      }
      assert IsDigit(c[|c| - 1]);
      if c in Keywords {
        KeywordsHaveNoDigits(c, |c| - 1);
      }
    }
  }

  /** The names in `taken` that are the j-th candidate for some j >= k. */
  ghost function TakenFrom(name: string, taken: set<string>, k: nat): set<string> {
    set s | s in taken && exists j: nat :: k <= j && s == Candidate(name, j)
  }

  lemma TakenFromShrinks(name: string, taken: set<string>, k: nat)
    requires Candidate(name, k) in taken
    ensures |TakenFrom(name, taken, k + 1)| < |TakenFrom(name, taken, k)|
  {
    var big, small := TakenFrom(name, taken, k), TakenFrom(name, taken, k + 1);
    assert small <= big;
    assert Candidate(name, k) in big;
    if Candidate(name, k) in small {
      var j: nat :| k + 1 <= j && Candidate(name, k) == Candidate(name, j);
      CandidateInjective(name, j, k);
    }
    assert Candidate(name, k) in big - small;
    assert big == small + (big - small);
    assert |big| == |small| + |big - small|;
  }

  /** The least j >= k whose candidate is not taken. */
  function FreshFrom(name: string, taken: set<string>, k: nat): (r: nat)
    ensures k <= r && Candidate(name, r) !in taken
    ensures forall j :: k <= j < r ==> Candidate(name, j) in taken
    decreases |TakenFrom(name, taken, k)|
  {
    if Candidate(name, k) !in taken then k
    else
      TakenFromShrinks(name, taken, k);
      FreshFrom(name, taken, k + 1)
  }

  /**
   * The local name given to an import: `name` when neither scope binds it,
   * otherwise `name` followed by the least k >= 1 that both leave unbound.
   */
  function FreshLocalName(name: string, fileScope: set<string>, pkgScope: set<string>): (r: string)
    ensures r !in fileScope && r !in pkgScope
    ensures r == name <==> name !in fileScope && name !in pkgScope
    ensures r != name ==>
              exists k: nat :: 1 <= k && r == name + Dec(k) &&
                forall j :: 0 <= j < k ==> Candidate(name, j) in fileScope + pkgScope
  {
    var k := FreshFrom(name, fileScope + pkgScope, 0);
    assert Candidate(name, 0) == name;
    Candidate(name, k)
  }

  // ---------------------------------------------------------------------
  // Whole-word search: the matches of the regexp \bW\b
  // ---------------------------------------------------------------------

  /** \b at position i of s: exactly one of the neighbouring bytes is a word character. */
  predicate IsBoundary(s: string, i: nat)
    requires i <= |s|
  {
    (i > 0 && IsWordChar(s[i - 1])) != (i < |s| && IsWordChar(s[i]))
  }

  /** An occurrence of w at k of s with a word boundary on each side. */
  predicate WholeWordAt(s: string, w: string, k: nat) {
    k + |w| <= |s| && s[k..k + |w|] == w && IsBoundary(s, k) && IsBoundary(s, k + |w|)
  }

  /** A non-empty string of word characters (every Go identifier is one). */
  predicate IsWord(w: string) {
    |w| > 0 && forall i :: 0 <= i < |w| ==> IsWordChar(w[i])
  }

  /** Two whole-word occurrences of a word never overlap. */
  lemma WholeWordsDisjoint(s: string, w: string, k: nat, k': nat)
    requires IsWord(w) && WholeWordAt(s, w, k) && k < k' < k + |w|
    ensures !WholeWordAt(s, w, k')
  {
    assert s[k' - 1] == s[k..k + |w|][k' - 1 - k] == w[k' - 1 - k];
    assert s[k'] == s[k..k + |w|][k' - k] == w[k' - k];
  }

  /**
   * The start offsets found by scanning s from pos for \bw\b, as
   * regexp.FindAllIndex does: the leftmost match, then the search goes on
   * from the end of that match (one byte further after an empty match).
   */
  function MatchesFrom(s: string, w: string, pos: nat): (r: seq<nat>)
    ensures forall i :: 0 <= i < |r| ==> pos <= r[i] && WholeWordAt(s, w, r[i])
    ensures forall i, j :: 0 <= i < j < |r| ==> r[i] + |w| <= r[j] && r[i] < r[j]
    decreases |s| + 1 - pos
  {
    if pos + |w| > |s| then []
    else if WholeWordAt(s, w, pos) then
      var next := if |w| == 0 then pos + 1 else pos + |w|;
      [pos] + MatchesFrom(s, w, next)
    else
      MatchesFrom(s, w, pos + 1)
  }

  /** The scan from pos finds every whole-word occurrence of a word at or after pos. */
  lemma {:induction false} MatchesFromComplete(s: string, w: string, pos: nat, k: nat)
    requires IsWord(w) && pos <= k && WholeWordAt(s, w, k)
    ensures k in MatchesFrom(s, w, pos)
    decreases |s| + 1 - pos
  {
    assert pos + |w| <= |s|;
    if WholeWordAt(s, w, pos) {
      assert MatchesFrom(s, w, pos) == [pos] + MatchesFrom(s, w, pos + |w|);
      if k != pos {
        if k < pos + |w| {
          WholeWordsDisjoint(s, w, pos, k);
          assert false;
        }
        MatchesFromComplete(s, w, pos + |w|, k);
      }
    } else {
      assert MatchesFrom(s, w, pos) == MatchesFrom(s, w, pos + 1);
      MatchesFromComplete(s, w, pos + 1, k);
    }
  }

  lemma MatchesComplete(s: string, w: string)
    requires IsWord(w)
    ensures forall k: nat :: WholeWordAt(s, w, k) ==> k in MatchesFrom(s, w, 0)
  {
    forall k: nat | WholeWordAt(s, w, k) ensures k in MatchesFrom(s, w, 0) {
      MatchesFromComplete(s, w, 0, k);
    }
  }

  /** All whole-word occurrences of w in s, in increasing order. */
  function WholeWordMatches(s: string, w: string): (r: seq<nat>)
    ensures forall i :: 0 <= i < |r| ==> WholeWordAt(s, w, r[i])
    ensures forall i, j :: 0 <= i < j < |r| ==> r[i] + |w| <= r[j] && r[i] < r[j]
    ensures IsWord(w) ==> forall k: nat :: WholeWordAt(s, w, k) <==> k in r
  {
    if IsWord(w) then MatchesComplete(s, w); MatchesFrom(s, w, 0) else MatchesFrom(s, w, 0)
  }

  // ---------------------------------------------------------------------
  // Import-path literals (strconv.Quote)
  // ---------------------------------------------------------------------

  /** The quoted form of an import path. */
  function Quote(s: string): (q: string)
    ensures |q| == |s| + 2 && q[0] == '"' && q[|q| - 1] == '"'
  {
    "\"" + s + "\""
  }

  lemma QuoteInjective(a: string, b: string)
    requires Quote(a) == Quote(b)
    ensures a == b
  {
    assert a == Quote(a)[1..|a| + 1];
    assert b == Quote(b)[1..|b| + 1];
  }
}
