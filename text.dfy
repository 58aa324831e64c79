/** The Python string operations the scripts rely on: `in` (substring test),
    `str.split()` with no argument, `str.isnumeric()`, `str.replace` (all
    occurrences, or only the first), f-string rendering of counters, and
    `float()` of a digit string with at most one decimal point. */
module Text {

  // ---------------------------------------------------------------------------
  // Characters

  /** The ASCII characters `str.split()` treats as separators: those for
      which `str.isspace()` holds (blank, tab, line feed, vertical tab, form
      feed, carriage return, and the separators 0x1C to 0x1F). */
  predicate IsSpace(c: char) {
    c == ' ' || c == '\t' || c == '\n' || c == '\r' || c as int == 11 || c as int == 12
    || 28 <= c as int <= 31
  }

  predicate IsDigit(c: char) {
    '0' <= c <= '9'
  }

  predicate NoSpace(s: string) {
    forall i | 0 <= i < |s| :: !IsSpace(s[i])
  }

  /** Every character of `s` is a digit or one of `extra`. */
  predicate Allowed(s: string, extra: set<char>) {
    forall c | c in s :: IsDigit(c) || c in extra
  }

  predicate HasDigit(s: string) {
    exists c | c in s :: IsDigit(c)
  }

  /** `s.isnumeric()`, restricted to ASCII digits. */
  predicate IsNumeric(s: string) {
    |s| > 0 && Allowed(s, {})
  }

  lemma NumericIsAllowed(s: string)
    ensures IsNumeric(s) <==> Allowed(s, {}) && HasDigit(s)
  {
    if IsNumeric(s) {
      assert s[0] in s;
    }
  }

  // ---------------------------------------------------------------------------
  // Substrings

  /** Python's `sub in s`. */
  predicate Contains(s: string, sub: string) {
    exists i | 0 <= i <= |s| - |sub| :: OccursAt(s, sub, i)
  }

  predicate OccursAt(s: string, sub: string, i: int) {
    0 <= i <= |s| - |sub| && s[i..i + |sub|] == sub
  }

  lemma ContainsInSuffix(p: string, s: string, sub: string)
    requires Contains(s, sub)
    ensures Contains(p + s, sub)
  {
    var i :| 0 <= i <= |s| - |sub| && OccursAt(s, sub, i);
    assert OccursAt(p + s, sub, |p| + i) by {
      assert (p + s)[|p| + i..|p| + i + |sub|] == s[i..i + |sub|];
    }
  }

  /** A string holds a pattern only if it holds the pattern's first character. */
  lemma ContainsFirstChar(s: string, sub: string)
    requires sub != [] && Contains(s, sub)
    ensures sub[0] in s
  {
    var i :| 0 <= i <= |s| - |sub| && OccursAt(s, sub, i);
    assert s[i] == s[i..i + |sub|][0];
  }

  /** A pattern whose first character is absent cannot occur. */
  lemma AbsentFirstChar(s: string, sub: string)
    requires sub != [] && sub[0] !in s
    ensures !Contains(s, sub)
  {
    if Contains(s, sub) {
      ContainsFirstChar(s, sub);
    }
  }

  /** A pattern found at the start of a string occurs in it. */
  lemma ContainsAtStart(s: string, sub: string)
    requires |sub| <= |s| && s[..|sub|] == sub
    ensures Contains(s, sub)
  {
    assert OccursAt(s, sub, 0);
  }

  // ---------------------------------------------------------------------------
  // Whitespace tokenisation

  /** Length of the leading run of non-separator characters. */
  function TokenLen(s: string): (n: nat)
    ensures n <= |s|
    ensures NoSpace(s[..n])
    ensures n == |s| || IsSpace(s[n])
    ensures s != [] && !IsSpace(s[0]) ==> n > 0
  {
    if s == [] || IsSpace(s[0]) then 0
    else
      var m := TokenLen(s[1..]);
      assert s[..1 + m] == [s[0]] + s[1..][..m];
      1 + m
  }

  /** `s.split()`: the maximal runs of non-separator characters, in order. */
  function Split(s: string): (r: seq<string>)
    ensures forall k | 0 <= k < |r| :: r[k] != [] && NoSpace(r[k])
    decreases |s|
  {
    if s == [] then []
    else if IsSpace(s[0]) then Split(s[1..])
    else
      var n := TokenLen(s);
      [s[..n]] + Split(s[n..])
  }

  lemma {:induction false} TokenLenOfToken(t: string, rest: string)
    requires NoSpace(t)
    requires rest == [] || IsSpace(rest[0])
    ensures TokenLen(t + rest) == |t|
  {
    if t != [] {
      assert (t + rest)[1..] == t[1..] + rest;
      TokenLenOfToken(t[1..], rest);
    } else {
      assert t + rest == rest;
    }
  }

  /** A token followed by a separator (or nothing) splits off as the first token. */
  lemma SplitToken(t: string, rest: string)
    requires t != [] && NoSpace(t)
    requires rest == [] || IsSpace(rest[0])
    ensures Split(t + rest) == [t] + Split(rest)
  {
    TokenLenOfToken(t, rest);
    assert (t + rest)[..|t|] == t;
    assert (t + rest)[|t|..] == rest;
  }

  lemma SplitSkipsSpace(c: char, rest: string)
    requires IsSpace(c)
    ensures Split([c] + rest) == Split(rest)
  {
    assert ([c] + rest)[1..] == rest;
  }

  /** Line ends hold no token. */
  lemma SplitLineEnd()
    ensures Split("\n") == [] && Split(" \n") == []
  {
    SplitSkipsSpace('\n', "");
    SplitSkipsSpace(' ', "\n");
  }

  /** Leading blanks never start a token. */
  lemma {:induction false} SplitLeadingBlanks(n: nat, rest: string)
    ensures Split(seq(n, _ => ' ') + rest) == Split(rest)
  {
    if n > 0 {
      var blanks := seq(n, _ => ' ');
      assert blanks + rest == [' '] + (seq(n - 1, _ => ' ') + rest);
      SplitSkipsSpace(' ', seq(n - 1, _ => ' ') + rest);
      SplitLeadingBlanks(n - 1, rest);
    } else {
      assert seq(n, _ => ' ') + rest == rest;
    }
  }

  /** Blanks, then a token, then text starting with a separator: the token
      comes first in the split. */
  lemma SplitBlanksToken(n: nat, x: string, rest: string)
    requires x != [] && NoSpace(x)
    requires rest == [] || IsSpace(rest[0])
    ensures Split(seq(n, _ => ' ') + (x + rest)) == [x] + Split(rest)
  {
    assert Split(seq(n, _ => ' ') + (x + rest)) == Split(x + rest) by {
      SplitLeadingBlanks(n, x + rest);
    }
    assert Split(x + rest) == [x] + Split(rest) by {
      SplitToken(x, rest);
    }
  }

  // ---------------------------------------------------------------------------
  // Replacement

  /** `s.replace(pat, rep)`: every non-overlapping occurrence, scanning left to right. */
  function ReplaceAll(s: string, pat: string, rep: string): string
    requires |pat| > 0
    decreases |s|
  {
    if |s| < |pat| then s
    else if s[..|pat|] == pat then rep + ReplaceAll(s[|pat|..], pat, rep)
    else [s[0]] + ReplaceAll(s[1..], pat, rep)
  }

  /** Replacing a single character by a character neither removes nor adds
      characters and leaves no occurrence of the replaced one. */
  lemma {:induction false} ReplaceCharLeavesNone(s: string, c: char, d: char)
    requires c != d
    ensures |ReplaceAll(s, [c], [d])| == |s|
    ensures forall i | 0 <= i < |s| :: ReplaceAll(s, [c], [d])[i] == (if s[i] == c then d else s[i])
  {
    if |s| >= 1 {
      ReplaceCharLeavesNone(s[1..], c, d);
    }
  }

  /** Every character of a replacement result comes from the input or from the
      replacement text. */
  lemma {:induction false} ReplaceAllChars(s: string, pat: string, rep: string)
    requires |pat| > 0
    ensures forall c | c in ReplaceAll(s, pat, rep) :: c in s || c in rep
    decreases |s|
  {
    if |s| >= |pat| {
      if s[..|pat|] == pat {
        ReplaceAllChars(s[|pat|..], pat, rep);
        assert forall c | c in s[|pat|..] :: c in s;
      } else {
        ReplaceAllChars(s[1..], pat, rep);
        assert forall c | c in s[1..] :: c in s;
      }
    }
  }

  /** `s.replace(c, '', 1)`: drops the first occurrence of `c`, if any. */
  function DeleteFirst(s: string, c: char): string {
    if s == [] then []
    else if s[0] == c then s[1..]
    else [s[0]] + DeleteFirst(s[1..], c)
  }

  /** `s.replace(c, '')`: drops every occurrence of `c`. */
  function DeleteAll(s: string, c: char): string {
    if s == [] then []
    else if s[0] == c then DeleteAll(s[1..], c)
    else [s[0]] + DeleteAll(s[1..], c)
  }

  /** `s.replace(c, '')` keeps every other character and only those. */
  lemma {:induction false} DeleteAllChars(s: string, c: char)
    ensures forall d :: d in DeleteAll(s, c) <==> d in s && d != c
  {
    if s != [] {
      DeleteAllChars(s[1..], c);
      assert forall d :: d in s <==> d == s[0] || d in s[1..];
    }
  }

  lemma {:induction false} DeleteFirstCounts(s: string, c: char)
    ensures multiset(DeleteFirst(s, c)) == multiset(s) - multiset{c}
  {
    if s != [] {
      assert s == [s[0]] + s[1..];
      DeleteFirstCounts(s[1..], c);
    }
  }

  /** Deleting the first occurrence of a non-digit `c` leaves only characters
      from `extra` besides digits exactly when `s` had at most one `c`; digits
      and every other character are kept. */
  lemma DeleteFirstAllowed(s: string, c: char, extra: set<char>)
    requires !IsDigit(c) && c !in extra
    ensures Allowed(DeleteFirst(s, c), extra) <==> Allowed(s, extra + {c}) && multiset(s)[c] <= 1
    ensures HasDigit(DeleteFirst(s, c)) <==> HasDigit(s)
    ensures forall d | d != c :: multiset(DeleteFirst(s, c))[d] == multiset(s)[d]
  {
    DeleteFirstCounts(s, c);
    var r := DeleteFirst(s, c);
    assert forall d :: d in r <==> multiset(r)[d] > 0;
    assert forall d :: d in s <==> multiset(s)[d] > 0;
  }

  // ---------------------------------------------------------------------------
  // Numbers

  function DigitChar(d: nat): (c: char)
    requires d < 10
    ensures IsDigit(c)
  {
    ('0' as int + d) as char
  }

  function DigitOf(c: char): (d: nat)
    requires IsDigit(c)
    ensures d < 10 && DigitChar(d) == c
  {
    c as int - '0' as int
  }

  /** `str(n)` for a natural number: its decimal digits, most significant first. */
  function NatToString(n: nat): (s: string)
    ensures IsNumeric(s)
  {
    if n < 10 then [DigitChar(n)] else NatToString(n / 10) + [DigitChar(n % 10)]
  }

  /** `int(s)` for a string of digits (the empty string reads as 0). */
  function DigitsValue(s: string): nat
    requires Allowed(s, {})
  {
    if s == [] then 0 else 10 * DigitsValue(s[..|s| - 1]) + DigitOf(s[|s| - 1])
  }

  lemma {:induction false} NatToStringRoundTrip(n: nat)
    ensures DigitsValue(NatToString(n)) == n
  {
    if n >= 10 {
      var s := NatToString(n);
      assert s[..|s| - 1] == NatToString(n / 10);
      NatToStringRoundTrip(n / 10);
    }
  }

  /** Different counters render differently, so numbered names never collide. */
  lemma NatToStringInjective(m: nat, n: nat)
    ensures NatToString(m) == NatToString(n) ==> m == n
  {
    NatToStringRoundTrip(m);
    NatToStringRoundTrip(n);
  }

  function Pow10(k: nat): (p: nat)
    ensures p >= 1
  {
    if k == 0 then 1 else 10 * Pow10(k - 1)
  }

  /** Index of the first occurrence of `c`, or |s| when there is none. */
  function IndexOf(s: string, c: char): (k: nat)
    ensures k <= |s|
    ensures forall i | 0 <= i < k :: s[i] != c
    ensures k < |s| ==> s[k] == c
  {
    if s == [] then 0 else if s[0] == c then 0 else 1 + IndexOf(s[1..], c)
  }

  /** `float(s)` for a string of digits with at most one '.': the digits before
      the point plus the digits after it scaled down. */
  function DecimalValue(s: string): (x: real)
    requires Allowed(s, {'.'}) && multiset(s)['.'] <= 1
    ensures x >= 0.0
  {
    var k := IndexOf(s, '.');
    if k == |s| then
      DigitsValue(s) as real
    else
      AfterPointDigits(s, k);
      DigitsValue(s[..k]) as real + DigitsValue(s[k + 1..]) as real / Pow10(|s| - k - 1) as real
  }

  lemma AfterPointDigits(s: string, k: nat)
    requires Allowed(s, {'.'}) && multiset(s)['.'] <= 1
    requires k < |s| && s[k] == '.' && forall i | 0 <= i < k :: s[i] != '.'
    ensures Allowed(s[..k], {}) && Allowed(s[k + 1..], {})
  {
    assert s == s[..k] + [s[k]] + s[k + 1..];
    assert multiset(s) == multiset(s[..k]) + multiset{'.'} + multiset(s[k + 1..]);
    assert forall d :: d in s[..k] ==> d in s;
    assert forall d :: d in s[k + 1..] ==> d in s;
  }
}
