/** The Python string operations the analyser relies on, on `string == seq<char>`. */
module Text {
  import opened Outcomes

  /** Python's `str.isspace()` for one character; `str.split()`, `str.strip()` and the
      regular-expression class `\s` all use this set. */
  predicate IsSpace(c: char) { c in SpaceChars }

  const SpaceChars: set<char> := {
    ' ', '\t', '\n', '\U{b}', '\U{c}', '\r', '\U{1c}', '\U{1d}', '\U{1e}', '\U{1f}',
    '\U{85}', '\U{a0}', '\U{1680}', '\U{2000}', '\U{2001}', '\U{2002}', '\U{2003}',
    '\U{2004}', '\U{2005}', '\U{2006}', '\U{2007}', '\U{2008}', '\U{2009}', '\U{200a}',
    '\U{2028}', '\U{2029}', '\U{202f}', '\U{205f}', '\U{3000}'
  }

  predicate IsDigit(c: char) { '0' <= c <= '9' }

  predicate IsDigits(s: string) { forall i :: 0 <= i < |s| ==> IsDigit(s[i]) }

  /** `s[k..]` starts with `pat`. */
  predicate OccursAt(s: string, pat: string, k: nat) {
    k + |pat| <= |s| && s[k..k + |pat|] == pat
  }

  /** Python's `s.startswith(p)`. */
  predicate StartsWith(s: string, p: string) { OccursAt(s, p, 0) }

  // ---------------------------------------------------------------- strip

  /** `s.lstrip()`: drops the leading whitespace and nothing else. */
  function TrimStart(s: string): (r: string)
    ensures |r| <= |s|
    ensures r == [] || !IsSpace(r[0])
    ensures forall i :: 0 <= i < |s| - |r| ==> IsSpace(s[i])
  {
    if s != [] && IsSpace(s[0]) then
      var r := TrimStart(s[1..]);
      assert forall i :: 1 <= i < |s| ==> s[i] == s[1..][i - 1];
      r
    else s
  }

  /** What `lstrip` keeps is a suffix of its argument. */
  lemma {:induction false} TrimStartSuffix(s: string)
    ensures TrimStart(s) == s[|s| - |TrimStart(s)|..]
  {
    if s != [] && IsSpace(s[0]) {
      TrimStartSuffix(s[1..]);
      assert s[1..][|s| - 1 - |TrimStart(s[1..])|..] == s[|s| - |TrimStart(s)|..];
    }
  }

  /** `s.rstrip()`: drops the trailing whitespace and nothing else. */
  function TrimEnd(s: string): (r: string)
    ensures |r| <= |s| && r == s[..|r|]
    ensures r == [] || !IsSpace(r[|r| - 1])
    ensures forall i :: |r| <= i < |s| ==> IsSpace(s[i])
  {
    if s != [] && IsSpace(s[|s| - 1]) then TrimEnd(s[..|s| - 1]) else s
  }

  /** `s.strip()`. */
  function Strip(s: string): string {
    TrimEnd(TrimStart(s))
  }

  /** The truth value of `s and s.strip()`, i.e. of `s.strip()`. */
  predicate HasText(s: string) { Strip(s) != [] }

  /** A string has text exactly when it holds a non-whitespace character. */
  lemma HasTextIff(s: string)
    ensures HasText(s) <==> exists i :: 0 <= i < |s| && !IsSpace(s[i])
  {
    var t := TrimStart(s);
    var r := TrimEnd(t);
    TrimStartSuffix(s);
    if r != [] {
      assert !IsSpace(s[|s| - |t|]);
    }
    if t != [] {
      assert !IsSpace(t[0]);
    }
  }

  /** Stripping returns a contiguous piece of its input, bounded by non-whitespace. */
  lemma StripIsSlice(s: string)
    ensures exists i, j :: 0 <= i <= j <= |s| && Strip(s) == s[i..j]
    ensures Strip(s) == [] || (!IsSpace(Strip(s)[0]) && !IsSpace(Strip(s)[|Strip(s)| - 1]))
  {
    var t := TrimStart(s);
    var r := TrimEnd(t);
    var i := |s| - |t|;
    TrimStartSuffix(s);
    assert t == s[i..];
    assert r == t[..|r|];
    assert r == s[i..i + |r|];
    if r != [] {
      assert r[0] == t[0];
      assert !IsSpace(t[0]);
      assert !IsSpace(r[|r| - 1]);
    }
  }

  /** Leading whitespace makes no difference to stripping a slice. */
  lemma {:induction false} StripSkipsSpaces(s: string, lo: nat, mid: nat, hi: nat)
    requires lo <= mid <= hi <= |s|
    requires forall k :: lo <= k < mid ==> IsSpace(s[k])
    ensures Strip(s[lo..hi]) == Strip(s[mid..hi])
    decreases mid - lo
  {
    if lo < mid {
      assert s[lo..hi][1..] == s[lo + 1..hi];
      assert IsSpace(s[lo..hi][0]);
      assert TrimStart(s[lo..hi]) == TrimStart(s[lo + 1..hi]);
      StripSkipsSpaces(s, lo + 1, mid, hi);
    }
  }

  /** A string made only of whitespace strips to nothing. */
  lemma StripAllSpace(s: string)
    requires forall k :: 0 <= k < |s| ==> IsSpace(s[k])
    ensures Strip(s) == ""
  {
    HasTextIff(s);
  }

  /** Stripping adds no character. */
  lemma StripWithout(s: string, c: char)
    requires c !in s
    ensures c !in Strip(s)
  {
    var t := TrimStart(s);
    assert c !in t by { TrimStartSuffix(s); }
    var r := TrimEnd(t);
    assert r == t[..|r|];
  }

  // ---------------------------------------------------------------- split / join

  /** `s.split(sep)` for a one-character separator: at least one piece, none holding `sep`. */
  function Split(s: string, sep: char): (parts: seq<string>)
    ensures |parts| >= 1
    ensures forall i :: 0 <= i < |parts| ==> sep !in parts[i]
  {
    if s == [] then [""]
    else
      var rest := Split(s[1..], sep);
      if s[0] == sep then [""] + rest else [[s[0]] + rest[0]] + rest[1..]
  }

  /** `sep.join(parts)`. */
  function Join(parts: seq<string>, sep: string): string {
    if |parts| == 0 then ""
    else if |parts| == 1 then parts[0]
    else parts[0] + sep + Join(parts[1..], sep)
  }

  lemma JoinCons(p: string, rest: seq<string>, sep: string)
    requires |rest| >= 1
    ensures Join([p] + rest, sep) == p + sep + Join(rest, sep)
  {
    assert ([p] + rest)[1..] == rest;
  }

  /** A join with a non-empty separator is empty only for no pieces or one empty piece. */
  lemma JoinEmpty(parts: seq<string>, sep: string)
    requires sep != []
    ensures Join(parts, sep) == "" <==> (parts == [] || parts == [""])
  {
    if |parts| >= 2 {
      assert |Join(parts, sep)| >= |sep|;
    }
  }

  /** Joining the pieces of a split with the separator gives back the string. */
  lemma {:induction false} JoinSplit(s: string, sep: char)
    ensures Join(Split(s, sep), [sep]) == s
  {
    if s != [] {
      JoinSplit(s[1..], sep);
      var rest := Split(s[1..], sep);
      if s[0] == sep {
        JoinCons("", rest, [sep]);
      } else if |rest| == 1 {
        assert Split(s, sep) == [[s[0]] + rest[0]];
      } else {
        JoinCons(rest[0], rest[1..], [sep]);
        assert rest == [rest[0]] + rest[1..];
        JoinCons([s[0]] + rest[0], rest[1..], [sep]);
      }
    }
  }

  lemma {:induction false} SplitNoSep(p: string, sep: char)
    requires sep !in p
    ensures Split(p, sep) == [p]
  {
    if p != [] {
      SplitNoSep(p[1..], sep);
      assert p[0] != sep;
      assert [p[0]] + p[1..] == p;
    }
  }

  lemma {:induction false} SplitAtSep(p: string, rest: string, sep: char)
    requires sep !in p
    ensures Split(p + [sep] + rest, sep) == [p] + Split(rest, sep)
  {
    if p == [] {
      assert (p + [sep] + rest)[1..] == rest;
    } else {
      assert (p + [sep] + rest)[1..] == p[1..] + [sep] + rest;
      SplitAtSep(p[1..], rest, sep);
      assert [p[0]] + p[1..] == p;
    }
  }

  /** Splitting a join of separator-free pieces gives back the pieces. */
  lemma {:induction false} SplitJoin(parts: seq<string>, sep: char)
    requires |parts| >= 1
    requires forall i :: 0 <= i < |parts| ==> sep !in parts[i]
    ensures Split(Join(parts, [sep]), sep) == parts
  {
    if |parts| == 1 {
      SplitNoSep(parts[0], sep);
    } else {
      SplitJoin(parts[1..], sep);
      SplitAtSep(parts[0], Join(parts[1..], [sep]), sep);
    }
  }

  // ---------------------------------------------------------------- searching

  /** `s.find(pat, from)`: the first occurrence of `pat` at or after `from`. */
  function FindFrom(s: string, pat: string, from: nat): (r: Option<nat>)
    ensures r.Some? ==> from <= r.value && OccursAt(s, pat, r.value)
    ensures r.Some? ==> forall k :: from <= k < r.value ==> !OccursAt(s, pat, k)
    ensures r.None? ==> forall k :: from <= k ==> !OccursAt(s, pat, k)
    decreases |s| - from
  {
    if from + |pat| > |s| then None
    else if s[from..from + |pat|] == pat then Some(from)
    else FindFrom(s, pat, from + 1)
  }

  /** A search may skip a stretch where the pattern does not occur. */
  lemma {:induction false} FindFromSkip(s: string, pat: string, a: nat, b: nat)
    requires a <= b
    requires forall k :: a <= k < b ==> !OccursAt(s, pat, k)
    ensures FindFrom(s, pat, a) == FindFrom(s, pat, b)
    decreases b - a
  {
    if a < b && a + |pat| <= |s| {
      assert !OccursAt(s, pat, a);
      FindFromSkip(s, pat, a + 1, b);
    } else if a < b {
      assert FindFrom(s, pat, a) == None;
      assert FindFrom(s, pat, b) == None;
    }
  }

  /** `s.rfind(c)` for one character. */
  function LastIndexOf(s: string, c: char): (r: Option<nat>)
    ensures r.Some? ==> r.value < |s| && s[r.value] == c && forall k :: r.value < k < |s| ==> s[k] != c
    ensures r.None? ==> c !in s
  {
    if s == [] then None
    else if s[|s| - 1] == c then Some(|s| - 1)
    else LastIndexOf(s[..|s| - 1], c)
  }

  /** `s.replace(pat, "")`: every non-overlapping occurrence of `pat`, scanned left to
      right, removed; an empty `pat` leaves `s` as it is. */
  function RemoveAll(s: string, pat: string): (r: string)
    ensures |r| <= |s|
    ensures pat == [] ==> r == s
    decreases |s|
  {
    if pat == [] || s == [] then s
    else if StartsWith(s, pat) then RemoveAll(s[|pat|..], pat)
    else [s[0]] + RemoveAll(s[1..], pat)
  }

  /** An occurrence in the tail of `s` is an occurrence in `s` one place later. */
  lemma OccursAtTail(s: string, pat: string, k: nat)
    requires s != []
    ensures OccursAt(s[1..], pat, k) <==> OccursAt(s, pat, k + 1)
  {
    if k + 1 + |pat| <= |s| {
      assert s[1..][k..k + |pat|] == s[k + 1..k + 1 + |pat|];
    }
  }

  /** A string in which `pat` never occurs is left as it is. */
  lemma {:induction false} RemoveAllAbsent(s: string, pat: string)
    requires forall k :: 0 <= k < |s| ==> !OccursAt(s, pat, k)
    ensures RemoveAll(s, pat) == s
    decreases |s|
  {
    if pat != [] && s != [] {
      assert !OccursAt(s, pat, 0);
      forall k | 0 <= k < |s[1..]| ensures !OccursAt(s[1..], pat, k) {
        OccursAtTail(s, pat, k);
      }
      RemoveAllAbsent(s[1..], pat);
    }
  }

  /** Removing occurrences of `pat` introduces no character. */
  lemma {:induction false} RemoveAllWithout(s: string, pat: string, c: char)
    requires c !in s
    ensures c !in RemoveAll(s, pat)
    decreases |s|
  {
    if pat != [] && s != [] {
      if StartsWith(s, pat) {
        assert forall k :: |pat| <= k < |s| ==> s[|pat|..][k - |pat|] == s[k];
        RemoveAllWithout(s[|pat|..], pat, c);
      } else {
        assert forall k :: 1 <= k < |s| ==> s[1..][k - 1] == s[k];
        RemoveAllWithout(s[1..], pat, c);
      }
    }
  }

  /** ASCII lower case, as used for case-insensitive matching of ASCII patterns. */
  function LowerAscii(s: string): (r: string)
    ensures |r| == |s|
  {
    seq(|s|, i requires 0 <= i < |s| => if 'A' <= s[i] <= 'Z' then (s[i] as int + 32) as char else s[i])
  }

  // ---------------------------------------------------------------- numbers

  function DigitChar(d: nat): (c: char)
    requires d < 10
    ensures IsDigit(c) && c as int - '0' as int == d
  {
    (d + '0' as int) as char
  }

  /** `str(n)` for a natural number. */
  function NatToString(n: nat): (r: string)
    ensures |r| >= 1 && IsDigits(r)
  {
    if n < 10 then [DigitChar(n)] else NatToString(n / 10) + [DigitChar(n % 10)]
  }

  /** The number a string of decimal digits denotes. */
  function DigitsValue(s: string): nat
    requires IsDigits(s)
  {
    if s == [] then 0 else 10 * DigitsValue(s[..|s| - 1]) + (s[|s| - 1] as int - '0' as int)
  }

  /** `str(n)` is read back as `n`, and has no superfluous leading zero. */
  lemma {:induction false} NatToStringValue(n: nat)
    ensures DigitsValue(NatToString(n)) == n
    ensures |NatToString(n)| > 1 ==> NatToString(n)[0] != '0'
  {
    if n >= 10 {
      NatToStringValue(n / 10);
      var r := NatToString(n);
      assert r[..|r| - 1] == NatToString(n / 10);
    }
  }

  /** `str(i)` for an integer. */
  function IntToString(i: int): string {
    if i < 0 then "-" + NatToString(-i) else NatToString(i)
  }

  // ---------------------------------------------------------------- words

  predicate IsWord(w: string) {
    w != [] && forall i :: 0 <= i < |w| ==> !IsSpace(w[i])
  }

  /** A non-empty run of ASCII letters is a word. */
  lemma LettersAreWord(w: string)
    requires w != [] && forall i :: 0 <= i < |w| ==> 'A' <= w[i] <= 'z'
    ensures IsWord(w)
  {
    forall i | 0 <= i < |w| ensures !IsSpace(w[i]) {
      var c := w[i];
      assert c !in SpaceChars by {
        assert 'A' <= c <= 'z';
      }
    }
  }

  /** The longest whitespace-free prefix of `s`. */
  function TakeWord(s: string): (w: string)
    ensures |w| <= |s| && w == s[..|w|]
    ensures forall i :: 0 <= i < |w| ==> !IsSpace(w[i])
    ensures |w| == |s| || IsSpace(s[|w|])
    ensures s != [] && !IsSpace(s[0]) ==> |w| >= 1
  {
    if s == [] || IsSpace(s[0]) then [] else [s[0]] + TakeWord(s[1..])
  }

  /** `s.split()` with no argument: the maximal whitespace-free runs, in order. */
  function Words(s: string): (ws: seq<string>)
    ensures forall i :: 0 <= i < |ws| ==> IsWord(ws[i])
  {
    if s == [] then []
    else if IsSpace(s[0]) then Words(s[1..])
    else
      var w := TakeWord(s);
      [w] + Words(s[|w|..])
  }

  lemma {:induction false} TakeWordOf(w: string, rest: string)
    requires IsWord(w)
    requires rest == [] || IsSpace(rest[0])
    ensures TakeWord(w + rest) == w
  {
    if |w| > 1 {
      assert (w + rest)[1..] == w[1..] + rest;
      TakeWordOf(w[1..], rest);
    } else {
      assert (w + rest)[1..] == rest;
    }
  }

  /** A word followed by whitespace (or nothing) is the first word. */
  lemma WordsCons(w: string, rest: string)
    requires IsWord(w)
    requires rest == [] || IsSpace(rest[0])
    ensures Words(w + rest) == [w] + Words(rest)
  {
    var s := w + rest;
    assert TrimStart(s) == s;
    TakeWordOf(w, rest);
    assert s[|w|..] == rest;
  }

  lemma WordsLeadingSpace(tail: string)
    ensures Words(" " + tail) == Words(tail)
  {
    assert (" " + tail)[1..] == tail;
    assert TrimStart(" " + tail) == TrimStart(tail);
  }

  /** Words of a single-space join of words are those words: `" ".join` never merges or splits a word. */
  lemma {:induction false} WordsOfJoin(ws: seq<string>)
    requires forall i :: 0 <= i < |ws| ==> IsWord(ws[i])
    ensures Words(Join(ws, " ")) == ws
  {
    if |ws| == 1 {
      WordsCons(ws[0], "");
      assert ws[0] + "" == ws[0];
    } else if |ws| > 1 {
      var tail := Join(ws[1..], " ");
      JoinCons(ws[0], ws[1..], " ");
      assert ws[0] + " " + tail == ws[0] + (" " + tail);
      WordsCons(ws[0], " " + tail);
      WordsLeadingSpace(tail);
      WordsOfJoin(ws[1..]);
      assert ws == [ws[0]] + ws[1..];
    }
  }
}
