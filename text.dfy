/** The few Python string operations the core relies on: `str.split(c)` with a
    one-character separator, `c.join(ws)`, `str.strip()`, `str.index(sub)`,
    `str.replace(pat, '')` and `str(n)` for a natural number. */
module Text {
  import opened Wrappers

  /** Python `s.split(sep)`: the pieces between occurrences of `sep`.
      There is always at least one piece (`"".split(" ") == [""]`). */
  function Split(s: string, sep: char): (r: seq<string>)
    ensures |r| >= 1
    ensures forall w :: w in r ==> sep !in w
    ensures |s| == 0 ==> r == [""]
    decreases |s|
  {
    if |s| == 0 then [""]
    else
      var rest := Split(s[1..], sep);
      if s[0] == sep then [""] + rest
      else [[s[0]] + rest[0]] + rest[1..]
  }

  /** Python `sep.join(ws)` for a one-character separator: the first word,
      then a separator and the join of the rest. */
  function Join(ws: seq<string>, sep: char): (r: string)
    ensures |ws| == 1 ==> r == ws[0]
    ensures |ws| >= 1 ==> ws[0] <= r
    ensures |ws| >= 2 ==> |ws[0]| < |r| && r[|ws[0]|] == sep
    decreases |ws|
  {
    if |ws| == 0 then ""
    else if |ws| == 1 then ws[0]
    else ws[0] + [sep] + Join(ws[1..], sep)
  }

  /** Python `len(p.split(" "))`, the word count the core uses for phrases. */
  function WordCount(p: string): (n: nat)
    ensures n >= 1
  {
    |Split(p, ' ')|
  }

  /** Every string split at a separator it does not contain is one piece. */
  lemma {:induction false} SplitNoSep(w: string, sep: char)
    ensures sep !in w ==> Split(w, sep) == [w]
    decreases |w|
  {
    if |w| > 0 && sep !in w {
      SplitNoSep(w[1..], sep);
      assert [w[0]] + w[1..] == w;
    }
  }

  /** Splitting distributes over a separator: `split(x + c + y)` is
      `split(x) + split(y)`. */
  lemma {:induction false} SplitAppendSep(x: string, y: string, sep: char)
    ensures Split(x + [sep] + y, sep) == Split(x, sep) + Split(y, sep)
    decreases |x|
  {
    var s := x + [sep] + y;
    if |x| == 0 {
      assert s[1..] == y;
    } else {
      assert s[1..] == x[1..] + [sep] + y;
      SplitAppendSep(x[1..], y, sep);
    }
  }

  /** Splitting undoes joining when no word holds the separator. */
  lemma {:induction false} SplitJoin(ws: seq<string>, sep: char)
    requires |ws| >= 1
    requires forall w :: w in ws ==> sep !in w
    ensures Split(Join(ws, sep), sep) == ws
    decreases |ws|
  {
    if |ws| == 1 {
      SplitNoSep(ws[0], sep);
    } else {
      SplitJoin(ws[1..], sep);
      SplitNoSep(ws[0], sep);
      SplitAppendSep(ws[0], Join(ws[1..], sep), sep);
      assert [ws[0]] + ws[1..] == ws;
    }
  }

  /** The first piece of a split is the text before the first separator. */
  lemma {:induction false} SplitHead(s: string, sep: char)
    ensures Split(s, sep)[0] <= s
    ensures |Split(s, sep)[0]| < |s| ==> s[|Split(s, sep)[0]|] == sep
    decreases |s|
  {
    if |s| > 0 && s[0] != sep {
      SplitHead(s[1..], sep);
      assert s == [s[0]] + s[1..];
    }
  }

  /** Joining undoes splitting, for every string. */
  lemma {:induction false} JoinSplit(s: string, sep: char)
    ensures Join(Split(s, sep), sep) == s
    decreases |s|
  {
    if |s| > 0 {
      var rest := Split(s[1..], sep);
      JoinSplit(s[1..], sep);
      if s[0] == sep {
        assert ([""] + rest)[1..] == rest;
        assert [s[0]] + s[1..] == s;
      } else {
        var r := [[s[0]] + rest[0]] + rest[1..];
        assert r[1..] == rest[1..];
        assert [s[0]] + s[1..] == s;
      }
    }
  }

  /** Appending a word appends the separator and the word. */
  lemma {:induction false} JoinSnoc(ws: seq<string>, w: string, sep: char)
    requires |ws| >= 1
    ensures Join(ws + [w], sep) == Join(ws, sep) + [sep] + w
    decreases |ws|
  {
    if |ws| == 1 {
      assert (ws + [w])[1..] == [w];
    } else {
      assert (ws + [w])[1..] == ws[1..] + [w];
      JoinSnoc(ws[1..], w, sep);
    }
  }

  /** A join splits at any inner word boundary. */
  lemma {:induction false} JoinAt(ws: seq<string>, k: nat, sep: char)
    requires 0 < k < |ws|
    ensures Join(ws, sep) == Join(ws[..k], sep) + [sep] + Join(ws[k..], sep)
    decreases k
  {
    if k > 1 {
      JoinAt(ws[1..], k - 1, sep);
      assert ws[1..][..k - 1] == ws[..k][1..];
      assert ws[1..][k - 1..] == ws[k..];
    } else {
      assert ws[k..] == ws[1..];
    }
  }

  /** Python `str.isspace()` for one character: the characters `str.strip()`
      removes when called without arguments. */
  predicate IsSpace(c: char) {
    ('\t' <= c <= '\r') || ('\U{1C}' <= c <= ' ') ||
    c == '\U{85}' || c == '\U{A0}' || c == '\U{1680}' ||
    ('\U{2000}' <= c <= '\U{200A}') || c == '\U{2028}' || c == '\U{2029}' ||
    c == '\U{202F}' || c == '\U{205F}' || c == '\U{3000}'
  }

  /** The index of the first non-whitespace character of `s` at or after
      `i`, or `|s|`. */
  function FirstNonSpace(s: string, i: nat): (k: nat)
    requires i <= |s|
    ensures i <= k <= |s|
    ensures forall j :: i <= j < k ==> IsSpace(s[j])
    ensures k == |s| || !IsSpace(s[k])
    decreases |s| - i
  {
    if i < |s| && IsSpace(s[i]) then FirstNonSpace(s, i + 1) else i
  }

  /** The index just after the last non-whitespace character of `s` before
      `j`, or 0. */
  function EndNonSpace(s: string, j: nat): (k: nat)
    requires j <= |s|
    ensures k <= j
    ensures forall i :: k <= i < j ==> IsSpace(s[i])
    ensures k == 0 || !IsSpace(s[k - 1])
    decreases j
  {
    if j > 0 && IsSpace(s[j - 1]) then EndNonSpace(s, j - 1) else j
  }

  /** Python `s.strip()`: the longest run of `s` that neither starts nor ends
      with whitespace, obtained by dropping only whitespace. */
  function Strip(s: string): (r: string)
    ensures |r| <= |s|
    ensures r == [] || (!IsSpace(r[0]) && !IsSpace(r[|r| - 1]))
    ensures (s == [] || (!IsSpace(s[0]) && !IsSpace(s[|s| - 1]))) ==> r == s
    ensures exists i, j :: && 0 <= i <= j <= |s| && r == s[i..j]
                           && (forall k :: 0 <= k < i ==> IsSpace(s[k]))
                           && (forall k :: j <= k < |s| ==> IsSpace(s[k]))
  {
    var start := FirstNonSpace(s, 0);
    var end := EndNonSpace(s, |s|);
    if end <= start then
      assert "" == s[start..start];
      ""
    else
      s[start..end]
  }

  /** `s.strip()` is empty exactly when `s` is all whitespace. */
  lemma StripEmpty(s: string)
    ensures Strip(s) == [] <==> forall i :: 0 <= i < |s| ==> IsSpace(s[i])
  {
    var start := FirstNonSpace(s, 0);
    var end := EndNonSpace(s, |s|);
    if start < end {
      assert !IsSpace(s[start]);
    }
  }

  predicate OccursAt(s: string, sub: string, k: int) {
    0 <= k && k + |sub| <= |s| && s[k..k + |sub|] == sub
  }

  function IndexFrom(s: string, sub: string, from: nat): (r: Option<nat>)
    requires from <= |s| + 1
    ensures r.Some? ==> from <= r.value && OccursAt(s, sub, r.value)
    ensures r.Some? ==> forall k :: from <= k < r.value ==> !OccursAt(s, sub, k)
    ensures r.None? ==> forall k :: from <= k ==> !OccursAt(s, sub, k)
    decreases |s| + 1 - from
  {
    if from + |sub| > |s| then None
    else if s[from..from + |sub|] == sub then Some(from)
    else IndexFrom(s, sub, from + 1)
  }

  /** Python `s.index(sub)`: the first position where `sub` occurs; `None`
      stands for the `ValueError` raised when it does not occur. */
  function IndexOf(s: string, sub: string): (r: Option<nat>)
    ensures r.Some? ==> OccursAt(s, sub, r.value)
    ensures r.Some? ==> forall k :: 0 <= k < r.value ==> !OccursAt(s, sub, k)
    ensures r.None? ==> forall k :: !OccursAt(s, sub, k)
  {
    IndexFrom(s, sub, 0)
  }

  /** Python `s.replace(pat, '')`: every occurrence of `pat` found in a left
      to right scan without overlaps is removed. */
  function RemoveAll(s: string, pat: string): (r: string)
    ensures |r| <= |s|
    ensures (pat == [] || forall k :: !OccursAt(s, pat, k)) ==> r == s
    decreases |s|
  {
    if |pat| == 0 || |s| < |pat| then s
    else if s[..|pat|] == pat then
      assert OccursAt(s, pat, 0);
      RemoveAll(s[|pat|..], pat)
    else
      assert forall k :: OccursAt(s[1..], pat, k) ==> OccursAt(s, pat, k + 1) by {
        forall k | OccursAt(s[1..], pat, k) ensures OccursAt(s, pat, k + 1) {
          assert s[k + 1..k + 1 + |pat|] == s[1..][k..k + |pat|];
        }
      }
      [s[0]] + RemoveAll(s[1..], pat)
  }

  predicate IsDigit(c: char) {
    '0' <= c <= '9'
  }

  /** A string that is empty or does not end in a decimal digit. */
  predicate NoDigitEnd(s: string) {
    s == [] || !IsDigit(s[|s| - 1])
  }

  function DigitChar(d: nat): (c: char)
    requires d < 10
    ensures IsDigit(c)
  {
    "0123456789"[d]
  }

  /** Python `str(n)` for a natural number: its decimal digits. */
  function NatToString(n: nat): (r: string)
    ensures |r| >= 1
    ensures forall i :: 0 <= i < |r| ==> IsDigit(r[i])
    decreases n
  {
    if n < 10 then [DigitChar(n)] else NatToString(n / 10) + [DigitChar(n % 10)]
  }

  /** The value of a string of decimal digits. */
  function DigitsValue(s: string): nat
    requires forall i :: 0 <= i < |s| ==> IsDigit(s[i])
    decreases |s|
  {
    if |s| == 0 then 0
    else
      assert IsDigit(s[|s| - 1]);
      DigitsValue(s[..|s| - 1]) * 10 + (s[|s| - 1] as int - '0' as int)
  }

  lemma DigitCharValue(d: nat)
    requires d < 10
    ensures DigitChar(d) as int - '0' as int == d
  {
  }

  /** Reading the digits of `str(n)` back gives `n`. */
  lemma {:induction false} NatToStringValue(n: nat)
    ensures DigitsValue(NatToString(n)) == n
    decreases n
  {
    var r := NatToString(n);
    if n < 10 {
      DigitCharValue(n);
      assert r[..0] == [];
    } else {
      NatToStringValue(n / 10);
      DigitCharValue(n % 10);
      assert r[..|r| - 1] == NatToString(n / 10);
    }
  }

  /** `str` is injective on natural numbers. */
  lemma NatToStringInjective(a: nat, b: nat)
    requires NatToString(a) == NatToString(b)
    ensures a == b
  {
    NatToStringValue(a);
    NatToStringValue(b);
  }
}
