/** Hand-written scanners for the four regular expressions the reply parser uses. Each
    scanner returns what Python's `re` returns for that one pattern: the same first match
    and the same groups, including the backtracking corner cases noted below.
    `\s` is `IsSpace`; `\d` is taken as the ASCII digits. */
module ReplyScan {
  import opened Outcomes
  import opened Text

  /** A half-open range `lo..hi` of positions in a string. */
  datatype Span = Span(lo: nat, hi: nat)

  const Fence := "```"

  /** The end of the run of whitespace starting at `i`. */
  function SkipSpaces(s: string, i: nat): (j: nat)
    requires i <= |s|
    ensures i <= j <= |s|
    ensures forall k :: i <= k < j ==> IsSpace(s[k])
    ensures j == |s| || !IsSpace(s[j])
    decreases |s| - i
  {
    if i < |s| && IsSpace(s[i]) then SkipSpaces(s, i + 1) else i
  }

  /** The end of the run of ASCII digits starting at `i`. */
  function SkipDigits(s: string, i: nat): (j: nat)
    requires i <= |s|
    ensures i <= j <= |s|
    ensures forall k :: i <= k < j ==> IsDigit(s[k])
    ensures j == |s| || !IsDigit(s[j])
    decreases |s| - i
  {
    if i < |s| && IsDigit(s[i]) then SkipDigits(s, i + 1) else i
  }

  // ------------------------------------------------------------------------------------
  // r"```(?:json)?\s*\n?(.*?)\n?```" with DOTALL.
  //
  // Only the first "```" can open a match: the optional tag and the whitespace after it
  // contain no backtick, so any later opener would itself close the first one. After the
  // opener the pattern takes "json" if present and all the whitespace that follows; the
  // lazy group then stops before the first "```" (or before a "\n" just ahead of it).

  /** A fence cannot start where there is no backtick. */
  lemma NoFenceWithout(t: string, lo: nat, hi: nat)
    requires forall k :: lo <= k < hi && k < |t| ==> t[k] != '`'
    ensures forall k :: lo <= k < hi ==> !OccursAt(t, Fence, k)
  {
    forall k | lo <= k < hi ensures !OccursAt(t, Fence, k) {
      if k + 3 <= |t| {
        assert t[k..k + 3][0] == t[k];
      }
    }
  }

  /** Past the opener at `o`: the optional "json" tag, then all the whitespace. */
  function FenceBodyStart(t: string, o: nat): (q: nat)
    requires o <= |t|
    ensures o <= q <= |t|
    ensures forall k :: o <= k < q ==> t[k] != '`'
    ensures var tagEnd := if OccursAt(t, "json", o) then o + 4 else o;
      && tagEnd <= q
      && (forall k :: tagEnd <= k < q ==> IsSpace(t[k]))
      && (q == |t| || !IsSpace(t[q]))
  {
    var tagEnd := if OccursAt(t, "json", o) then o + 4 else o;
    assert forall k :: o <= k < tagEnd ==> t[k] != '`' by {
      if tagEnd > o {
        assert t[o..o + 4] == "json";
        assert t[o] == t[o..o + 4][0] && t[o + 1] == t[o..o + 4][1];
        assert t[o + 2] == t[o..o + 4][2] && t[o + 3] == t[o..o + 4][3];
      }
    }
    assert !IsSpace('`');
    SkipSpaces(t, tagEnd)
  }

  /** Where group 1 of the fence pattern lies in `t`, if the pattern matches. */
  function FenceSpan(t: string): (r: Option<Span>)
    ensures r.Some? <==>
      FindFrom(t, Fence, 0).Some? && FindFrom(t, Fence, FindFrom(t, Fence, 0).value + 3).Some?
    ensures r.Some? ==> FindFrom(t, Fence, 0).value + 3 <= r.value.lo <= r.value.hi < |t|
    ensures r.Some? ==> forall k :: r.value.lo <= k < r.value.hi ==> !OccursAt(t, Fence, k)
    ensures r.Some? ==>
      OccursAt(t, Fence, r.value.hi) || (t[r.value.hi] == '\n' && OccursAt(t, Fence, r.value.hi + 1))
    ensures r.Some? ==> r.value.lo == FenceBodyStart(t, FindFrom(t, Fence, 0).value + 3)
    ensures r.Some? && r.value.lo < r.value.hi && OccursAt(t, Fence, r.value.hi) ==> t[r.value.hi - 1] != '\n'
  {
    var first := FindFrom(t, Fence, 0);
    if first.None? then None
    else
      assert |Fence| == 3 && OccursAt(t, Fence, first.value);
      FenceAfter(t, first.value + 3)
  }

  /** Group 1 of a fenced block whose opener ends at `o`. */
  function FenceAfter(t: string, o: nat): (r: Option<Span>)
    requires o <= |t|
    ensures r.Some? <==> FindFrom(t, Fence, o).Some?
    ensures r.Some? ==> o <= r.value.lo <= r.value.hi < |t|
    ensures r.Some? ==> forall k :: r.value.lo <= k < r.value.hi ==> !OccursAt(t, Fence, k)
    ensures r.Some? ==>
      OccursAt(t, Fence, r.value.hi) || (t[r.value.hi] == '\n' && OccursAt(t, Fence, r.value.hi + 1))
    ensures r.Some? ==> r.value.lo == FenceBodyStart(t, o)
    ensures r.Some? && r.value.lo < r.value.hi && OccursAt(t, Fence, r.value.hi) ==> t[r.value.hi - 1] != '\n'
  {
    var q := FenceBodyStart(t, o);
    // no fence can start inside the tag or the whitespace
    NoFenceWithout(t, o, q);
    FindFromSkip(t, Fence, o, q);
    var close := FindFrom(t, Fence, q);
    if close.None? then None
    else
      var j := close.value;
      if j > q && t[j - 1] == '\n' then
        assert !OccursAt(t, Fence, j - 1) by { assert t[j - 1..j + 2][0] == t[j - 1]; }
        Some(Span(q, j - 1))
      else
        Some(Span(q, j))
  }

  // ------------------------------------------------------------------------------------
  // r"\{.*\}" with DOTALL: from the first '{' to the last '}', when the first '{' comes
  // before the last '}'. A later '{' can do no better, since its '}' would also follow
  // the first '{'.

  /** Where the match of the object pattern lies in `t`, if it matches. */
  function ObjectSpan(t: string): (r: Option<Span>)
    ensures r.Some? ==> r.value.lo + 1 < r.value.hi <= |t|
    ensures r.Some? ==> t[r.value.lo] == '{' && t[r.value.hi - 1] == '}'
    ensures r.Some? ==> '{' !in t[..r.value.lo] && '}' !in t[r.value.hi..]
    ensures r.None? <==> forall i, j :: 0 <= i < j < |t| && t[i] == '{' ==> t[j] != '}'
  {
    match FindFrom(t, "{", 0)
    case None =>
      assert forall i :: 0 <= i < |t| ==> (t[i] == '{' ==> OccursAt(t, "{", i));
      None
    case Some(i) =>
      assert forall k :: 0 <= k < i ==> (t[k] == '{' ==> OccursAt(t, "{", k));
      assert t[i] == '{';
      match LastIndexOf(t, '}')
      case None => None
      case Some(j) =>
        if i < j then
          assert '{' !in t[..i] by {
            forall k | 0 <= k < i ensures t[..i][k] != '{' { assert !OccursAt(t, "{", k); }
          }
          Some(Span(i, j + 1))
        else
          None
  }

  // ------------------------------------------------------------------------------------
  // r"[Ll]ine\s+(\d+)\s*[:\-–]\s*(.+?)(?:\n|$)" with MULTILINE, used with finditer.
  //
  // Every run before the separator is deterministic. After it, `\s*` takes all the
  // whitespace (newlines too) and the lazy group runs to the end of that line. When that
  // whitespace reaches the end of the input, the engine gives back the last non-newline
  // whitespace character to the group, so the explanation is "" after stripping; with
  // only newlines left there is no match at this position.

  /** One `finditer` match: where it starts, the digits of group 1 and where they start,
      where the separator lies, group 2, and where the match ends. */
  datatype LineHit = LineHit(start: nat, numberAt: nat, number: string, separatorAt: nat, group: string, end: nat) {
    /** Group 1 is a decimal digit string and group 2 lies within one line. */
    predicate WellFormed() {
      number != [] && IsDigits(number) && '\n' !in group
    }
  }

  predicate IsLineSeparator(c: char) { c == ':' || c == '-' || c == '\U{2013}' }

  /** The first `k >= i` at a newline, or `|s|`. */
  function LineEnd(s: string, i: nat): (k: nat)
    requires i <= |s|
    ensures i <= k <= |s| && (k == |s| || s[k] == '\n')
    ensures forall m :: i <= m < k ==> s[m] != '\n'
    decreases |s| - i
  {
    if i == |s| || s[i] == '\n' then i else LineEnd(s, i + 1)
  }

  /** The last position in `lo..hi` that does not hold a newline. */
  function LastNonNewline(s: string, lo: nat, hi: nat): (r: Option<nat>)
    requires lo <= hi <= |s|
    ensures r.Some? ==> lo <= r.value < hi && s[r.value] != '\n'
    ensures r.Some? ==> forall m :: r.value < m < hi ==> s[m] == '\n'
    ensures r.None? ==> forall m :: lo <= m < hi ==> s[m] == '\n'
    decreases hi - lo
  {
    if hi == lo then None
    else if s[hi - 1] != '\n' then Some(hi - 1)
    else LastNonNewline(s, lo, hi - 1)
  }

  /** Where the line of group 2 ends, for the tail after the separator starting at `g`:
      the first newline after the first non-whitespace character, or the end of `s`. */
  function TailEnd(s: string, g: nat): (f: nat)
    requires g <= |s|
    ensures g <= f <= |s| && (f == |s| || s[f] == '\n')
  {
    var e := SkipSpaces(s, g);
    if e < |s| then LineEnd(s, e + 1) else |s|
  }

  /** `(.+?)(?:\n|$)` after `\s*`, the whitespace run starting at `g`: where group 2 lies
      and where the match ends, if this tail matches. */
  function LineTail(s: string, g: nat): (r: Option<(Span, nat)>)
    requires g <= |s|
    ensures r.Some? ==> g <= r.value.0.lo < r.value.0.hi <= |s| && g < r.value.1 <= |s|
    ensures r.Some? ==> forall k :: r.value.0.lo <= k < r.value.0.hi ==> s[k] != '\n'
  {
    var e := SkipSpaces(s, g);
    if e < |s| then
      assert IsSpace('\n');
      var f := LineEnd(s, e + 1);
      Some((Span(e, f), if f < |s| then f + 1 else f))
    else
      var last := LastNonNewline(s, g, e);
      if last.None? then None
      else
        // the group is the single whitespace character s[m]
        var m := last.value;
        Some((Span(m, m + 1), if m + 1 < |s| then m + 2 else m + 1))
  }

  /** The tail matches exactly when some character after `g` is not a newline. */
  lemma LineTailMatches(s: string, g: nat)
    requires g <= |s|
    ensures LineTail(s, g).Some? <==> exists m :: g <= m < |s| && s[m] != '\n'
  {
    if SkipSpaces(s, g) < |s| {
      assert IsSpace('\n');
    }
  }

  /** Group 2 stripped is the rest of the line stripped, from the start of the tail. */
  lemma LineTailText(s: string, g: nat)
    requires g <= |s|
    ensures LineTail(s, g).Some? ==>
      Strip(s[LineTail(s, g).value.0.lo..LineTail(s, g).value.0.hi]) == Strip(s[g..TailEnd(s, g)])
  {
    var e := SkipSpaces(s, g);
    if e < |s| {
      var f := LineEnd(s, e + 1);
      TailFromText(s, g, e, f);
      StripSkipsSpaces(s, g, e, f);
    } else {
      var last := LastNonNewline(s, g, e);
      if last.Some? {
        var m := last.value;
        TailFromSpace(s, g, m);
        StripAllSpace(s[m..m + 1]);
        StripAllSpace(s[g..|s|]);
      }
    }
  }

  /** The tail reaches a non-whitespace character at `e`: group 2 runs from there to the
      line end `f`. */
  lemma TailFromText(s: string, g: nat, e: nat, f: nat)
    requires g <= |s| && e == SkipSpaces(s, g) < |s| && f == LineEnd(s, e + 1)
    ensures LineTail(s, g).Some? && LineTail(s, g).value.0 == Span(e, f)
    ensures TailEnd(s, g) == f
  {
  }

  /** The tail is whitespace to the end and `m` is its last non-newline: group 2 is that one
      character. */
  lemma TailFromSpace(s: string, g: nat, m: nat)
    requires g <= |s| && SkipSpaces(s, g) == |s| && LastNonNewline(s, g, |s|) == Some(m)
    ensures LineTail(s, g).Some? && LineTail(s, g).value.0 == Span(m, m + 1)
    ensures TailEnd(s, g) == |s|
    ensures forall k :: g <= k < |s| ==> IsSpace(s[k])
  {
  }

  /** `[Ll]ine\s+(\d+)` at `i`: where group 1 lies, if this prefix matches. */
  function LineNumberAt(s: string, i: nat): (r: Option<Span>)
    requires i <= |s|
    ensures r.Some? ==> i + 4 < r.value.lo < r.value.hi <= |s|
    ensures r.Some? ==> (s[i] == 'L' || s[i] == 'l') && OccursAt(s, "ine", i + 1)
    ensures r.Some? ==> forall k :: i + 4 <= k < r.value.lo ==> IsSpace(s[k])
    ensures r.Some? ==> forall k :: r.value.lo <= k < r.value.hi ==> IsDigit(s[k])
    ensures r.Some? ==> r.value.hi == |s| || !IsDigit(s[r.value.hi])
  {
    if !(i + 4 <= |s| && (s[i] == 'L' || s[i] == 'l') && OccursAt(s, "ine", i + 1)) then None
    else
      var a := SkipSpaces(s, i + 4);
      var b := SkipDigits(s, a);
      if a == i + 4 || b == a then None else Some(Span(a, b))
  }

  /** The text at `i` has the shape the line pattern asks for, with group 1 at `a..b` and
      the separator at `c`: "Line" or "line", whitespace, digits, optional whitespace, one of
      ':', '-', '\U{2013}', and then some character that is not a newline. */
  predicate LineShape(s: string, i: nat, a: nat, b: nat, c: nat) {
    && i + 4 < a < b <= c < |s|
    && (s[i] == 'L' || s[i] == 'l') && OccursAt(s, "ine", i + 1)
    && (forall k :: i + 4 <= k < a ==> IsSpace(s[k]))
    && (forall k :: a <= k < b ==> IsDigit(s[k]))
    && (forall k :: b <= k < c ==> IsSpace(s[k]))
    && IsLineSeparator(s[c])
    && (exists m :: c < m < |s| && s[m] != '\n')
  }

  /** The match of the line pattern that starts exactly at `i`, if any. */
  function MatchLineAt(s: string, i: nat): (r: Option<LineHit>)
    requires i <= |s|
    ensures r.Some? ==> r.value.start == i && i < r.value.end <= |s|
    ensures r.Some? ==> i + 4 < r.value.numberAt && OccursAt(s, r.value.number, r.value.numberAt)
    ensures r.Some? ==> r.value.numberAt + |r.value.number| <= r.value.separatorAt < |s|
    ensures r.Some? ==> r.value.WellFormed()
  {
    var num := LineNumberAt(s, i);
    if num.None? then None
    else
      var a, b := num.value.lo, num.value.hi;
      var c := SkipSpaces(s, b);
      if c == |s| || !IsLineSeparator(s[c]) then None
      else
        var tail := LineTail(s, c + 1);
        if tail.None? then None
        else
          DigitsSlice(s, a, b);
          Some(LineHit(i, a, s[a..b], c, s[tail.value.0.lo..tail.value.0.hi], tail.value.1))
  }

  /** Group 2 stripped is the rest of the line from `g` stripped; the whitespace at `g` may
      run over newlines before that line. */
  lemma TailStripped(s: string, h: LineHit)
    requires GroupFromTail(s, h)
    ensures Strip(h.group) == Strip(s[h.separatorAt + 1..TailEnd(s, h.separatorAt + 1)])
  {
    LineTailText(s, h.separatorAt + 1);
  }

  /** The same for every match in `hits`. */
  lemma TailsStripped(s: string, hits: seq<LineHit>)
    requires forall h :: h in hits ==> GroupFromTail(s, h)
    ensures forall h :: h in hits ==>
      h.separatorAt < |s| && Strip(h.group) == Strip(s[h.separatorAt + 1..TailEnd(s, h.separatorAt + 1)])
  {
    forall h | h in hits
      ensures Strip(h.group) == Strip(s[h.separatorAt + 1..TailEnd(s, h.separatorAt + 1)])
    {
      TailStripped(s, h);
    }
  }

  /** Group 2 of `h` is what the tail after its separator yields. */
  predicate GroupFromTail(s: string, h: LineHit) {
    && h.separatorAt < |s| && LineTail(s, h.separatorAt + 1).Some?
    && h.group == s[LineTail(s, h.separatorAt + 1).value.0.lo..LineTail(s, h.separatorAt + 1).value.0.hi]
  }

  /** Group 2 of a match is the tail's group. */
  lemma MatchLineGroup(s: string, i: nat)
    requires i <= |s| && MatchLineAt(s, i).Some?
    ensures GroupFromTail(s, MatchLineAt(s, i).value)
  {
  }

  /** Wherever the text has the line pattern's shape, the pattern matches there, with
      group 1 and the separator where the shape puts them. */
  lemma ShapeMatches(s: string, i: nat, a: nat, b: nat, c: nat)
    requires LineShape(s, i, a, b, c)
    ensures MatchLineAt(s, i).Some?
    ensures MatchLineAt(s, i).value.numberAt == a && MatchLineAt(s, i).value.number == s[a..b]
    ensures MatchLineAt(s, i).value.separatorAt == c
  {
    ShapeRuns(s, i, a, b, c);
    MatchFrom(s, i, a, b, c);
  }

  /** The shape fixes where each run the pattern scans ends, and the tail matches. */
  lemma ShapeRuns(s: string, i: nat, a: nat, b: nat, c: nat)
    requires LineShape(s, i, a, b, c)
    ensures LineNumberAt(s, i) == Some(Span(a, b))
    ensures SkipSpaces(s, b) == c && LineTail(s, c + 1).Some?
  {
    DigitClass(s[a]);
    SkipSpacesTo(s, i + 4, a);
    SeparatorClass(s[c]);
    assert b == |s| || !IsDigit(s[b]);
    SkipDigitsTo(s, a, b);
    NumberFrom(s, i, a, b);
    SkipSpacesTo(s, b, c);
    var m :| c < m < |s| && s[m] != '\n';
    LineTailMatches(s, c + 1);
  }

  /** `[Ll]ine\s+(\d+)` at `i` once the two runs are known. */
  lemma NumberFrom(s: string, i: nat, a: nat, b: nat)
    requires i + 4 < a < b <= |s|
    requires (s[i] == 'L' || s[i] == 'l') && OccursAt(s, "ine", i + 1)
    requires SkipSpaces(s, i + 4) == a && SkipDigits(s, a) == b
    ensures LineNumberAt(s, i) == Some(Span(a, b))
  {
  }

  /** The whole line pattern at `i` once group 1, the separator and the tail are known. */
  lemma MatchFrom(s: string, i: nat, a: nat, b: nat, c: nat)
    requires i <= |s| && LineNumberAt(s, i) == Some(Span(a, b))
    requires SkipSpaces(s, b) == c < |s| && IsLineSeparator(s[c])
    requires LineTail(s, c + 1).Some?
    ensures MatchLineAt(s, i).Some?
    ensures MatchLineAt(s, i).value.numberAt == a && MatchLineAt(s, i).value.number == s[a..b]
    ensures MatchLineAt(s, i).value.separatorAt == c
  {
  }

  lemma DigitClass(ch: char)
    requires IsDigit(ch)
    ensures !IsSpace(ch)
  {
  }

  lemma SeparatorClass(ch: char)
    requires IsLineSeparator(ch)
    ensures !IsSpace(ch) && !IsDigit(ch)
  {
  }

  /** A whitespace run that stops at `j` ends there. */
  lemma SkipSpacesTo(s: string, i: nat, j: nat)
    requires i <= j <= |s|
    requires forall k :: i <= k < j ==> IsSpace(s[k])
    requires j == |s| || !IsSpace(s[j])
    ensures SkipSpaces(s, i) == j
  {
  }

  /** A digit run that stops at `j` ends there. */
  lemma SkipDigitsTo(s: string, i: nat, j: nat)
    requires i <= j <= |s|
    requires forall k :: i <= k < j ==> IsDigit(s[k])
    requires j == |s| || !IsDigit(s[j])
    ensures SkipDigits(s, i) == j
  {
  }

  /** A match has the line pattern's shape, with group 1 and the separator where the
      match records them. */
  lemma MatchLineShape(s: string, i: nat)
    requires i <= |s| && MatchLineAt(s, i).Some?
    ensures var h := MatchLineAt(s, i).value;
      LineShape(s, i, h.numberAt, h.numberAt + |h.number|, h.separatorAt)
  {
    var num := LineNumberAt(s, i).value;
    var c := SkipSpaces(s, num.hi);
    var tail := LineTail(s, c + 1).value;
    assert c < tail.0.lo < |s| && s[tail.0.lo] != '\n';
  }

  /** The line pattern matches at `i` exactly when the text there has its shape. */
  lemma MatchLineAtIff(s: string, i: nat)
    requires i <= |s|
    ensures MatchLineAt(s, i).Some? <==> exists a, b, c :: LineShape(s, i, a, b, c)
  {
    if MatchLineAt(s, i).Some? {
      var h := MatchLineAt(s, i).value;
      MatchLineShape(s, i);
      assert LineShape(s, i, h.numberAt, h.numberAt + |h.number|, h.separatorAt);
    } else if exists a, b, c :: LineShape(s, i, a, b, c) {
      var a, b, c :| LineShape(s, i, a, b, c);
      ShapeMatches(s, i, a, b, c);
    }
  }

  lemma DigitsSlice(s: string, a: nat, b: nat)
    requires a <= b <= |s|
    requires forall k :: a <= k < b ==> IsDigit(s[k])
    ensures IsDigits(s[a..b]) && OccursAt(s, s[a..b], a)
  {
    forall k | 0 <= k < b - a ensures IsDigit(s[a..b][k]) { assert s[a..b][k] == s[a + k]; }
  }

  // `finditer` over any matcher `f`, where `f(i)` is the match starting at `i` (if any).
  // Stated for an arbitrary matcher and then applied to `MatchLineAt`.

  /** A match found at a position before `n` starts there and ends after it, by `n`. */
  ghost predicate Advances(n: nat, f: nat -> Option<LineHit>) {
    forall i: nat :: i < n && f(i).Some? ==> f(i).value.start == i < f(i).value.end <= n
  }

  /** `finditer` with matcher `f` on positions `from..n`: try each position in turn and
      resume after the end of every match found. */
  function Scan(n: nat, from: nat, f: nat -> Option<LineHit>): seq<LineHit>
    requires from <= n && Advances(n, f)
    decreases n - from
  {
    if from == n then []
    else
      var m := f(from);
      if m.Some? then [m.value] + Scan(n, m.value.end, f) else Scan(n, from + 1, f)
  }

  lemma {:induction false} ScanFacts(n: nat, from: nat, f: nat -> Option<LineHit>)
    requires from <= n && Advances(n, f)
    ensures forall k :: 0 <= k < |Scan(n, from, f)| ==>
      from <= Scan(n, from, f)[k].start < Scan(n, from, f)[k].end <= n
      && f(Scan(n, from, f)[k].start) == Some(Scan(n, from, f)[k])
    ensures forall k :: 0 <= k < |Scan(n, from, f)| - 1 ==> Scan(n, from, f)[k].end <= Scan(n, from, f)[k + 1].start
    decreases n - from
  {
    if from < n {
      var m := f(from);
      if m.Some? {
        ScanFacts(n, m.value.end, f);
        assert Scan(n, from, f) == [m.value] + Scan(n, m.value.end, f);
      } else {
        ScanFacts(n, from + 1, f);
      }
    }
  }

  /** Position `p` lies within the match `h`. */
  predicate Covers(h: LineHit, p: nat) { h.start <= p < h.end }

  /** Position `p` lies within one of the matches in `hits`. */
  predicate CoveredBy(hits: seq<LineHit>, p: nat) {
    exists k :: 0 <= k < |hits| && Covers(hits[k], p)
  }

  lemma CoveredByCons(h: LineHit, hits: seq<LineHit>, p: nat)
    requires Covers(h, p) || CoveredBy(hits, p)
    ensures CoveredBy([h] + hits, p)
  {
    if Covers(h, p) {
      assert ([h] + hits)[0] == h;
    } else {
      var k :| 0 <= k < |hits| && Covers(hits[k], p);
      assert ([h] + hits)[k + 1] == hits[k];
    }
  }

  /** No match is missed: wherever `f` finds one, a listed match starts there or overlaps it. */
  lemma {:induction false} ScanCover(n: nat, from: nat, f: nat -> Option<LineHit>, p: nat)
    requires from <= p < n && Advances(n, f)
    requires f(p).Some?
    ensures CoveredBy(Scan(n, from, f), p)
    decreases n - from
  {
    var m := f(from);
    if m.Some? {
      var rest := Scan(n, m.value.end, f);
      if p >= m.value.end {
        ScanCover(n, m.value.end, f, p);
      }
      CoveredByCons(m.value, rest, p);
      assert Scan(n, from, f) == [m.value] + rest;
    } else {
      ScanCover(n, from + 1, f, p);
    }
  }

  /** The line pattern's matcher on `s`. */
  function LineMatcher(s: string): nat -> Option<LineHit> {
    (i: nat) => if i <= |s| then MatchLineAt(s, i) else None
  }

  lemma LineMatcherAdvances(s: string)
    ensures Advances(|s|, LineMatcher(s))
  {
  }

  /** All `finditer` matches of the line pattern in `s[from..]`, in order of appearance. */
  function LineHits(s: string, from: nat): seq<LineHit>
    requires from <= |s|
  {
    LineMatcherAdvances(s);
    Scan(|s|, from, LineMatcher(s))
  }

  /** `h` is the pattern's match at its own start. */
  predicate IsMatchAt(s: string, h: LineHit) {
    h.start <= |s| && MatchLineAt(s, h.start) == Some(h)
  }

  /** The matches lie within `s[from..]`, each is the pattern's match at its own start, each
      has a digit string for group 1 and a one-line group 2, and they do not overlap. */
  lemma LineHitsSpec(s: string, from: nat)
    requires from <= |s|
    ensures forall k :: 0 <= k < |LineHits(s, from)| ==>
      from <= LineHits(s, from)[k].start < LineHits(s, from)[k].end <= |s|
    ensures forall k :: 0 <= k < |LineHits(s, from)| ==>
      IsMatchAt(s, LineHits(s, from)[k]) && LineHits(s, from)[k].WellFormed()
    ensures forall k :: 0 <= k < |LineHits(s, from)| - 1 ==> LineHits(s, from)[k].end <= LineHits(s, from)[k + 1].start
  {
    LineMatcherAdvances(s);
    ScanFacts(|s|, from, LineMatcher(s));
  }

  /** Group 2 of each match is what the tail after its separator yields. */
  lemma LineHitsGroups(s: string, from: nat)
    requires from <= |s|
    ensures forall h :: h in LineHits(s, from) ==> GroupFromTail(s, h)
  {
    LineHitsSpec(s, from);
    forall h | h in LineHits(s, from) ensures GroupFromTail(s, h) {
      MatchLineGroup(s, h.start);
    }
  }

  /** No match is missed: wherever the pattern matches, a listed match starts there or
      overlaps that position (`finditer` resumes after the end of each match). */
  lemma LineHitsCover(s: string, from: nat, p: nat)
    requires from <= p < |s|
    requires MatchLineAt(s, p).Some?
    ensures CoveredBy(LineHits(s, from), p)
  {
    LineMatcherAdvances(s);
    assert LineMatcher(s)(p).Some?;
    ScanCover(|s|, from, LineMatcher(s), p);
  }

  // ------------------------------------------------------------------------------------
  // r"Corrected Code:?\s*```(?:cpp|c)?\n?(.*?)```" with DOTALL | IGNORECASE, used with
  // search. At a given label only one path can succeed: the colon, the whitespace, the
  // tag and the newline are each taken when present, and giving any of them back cannot
  // make a closing fence appear. If the label is not followed by a fenced body, the
  // search moves on to the next label.

  const Label := "corrected code"

  /** After the label starting at `i`, `:?\s*` and then "```" at `b`: the colon comes
      straight after the label if it is there at all, and whitespace fills the rest. */
  predicate LabelOpener(s: string, i: nat, b: nat) {
    && i + |Label| <= b && OccursAt(s, Fence, b)
    && forall k :: i + |Label| <= k < b ==> IsSpace(s[k]) || (k == i + |Label| && s[k] == ':')
  }

  /** The text at `i` has the shape the corrected-code pattern asks for: the label in any
      case, an opener, and a later "```" that does not overlap it. */
  ghost predicate CorrectedShape(s: string, i: nat) {
    && i + |Label| <= |s| && LowerAscii(s[i..i + |Label|]) == Label
    && exists b: nat, j: nat :: LabelOpener(s, i, b) && b + 3 <= j && OccursAt(s, Fence, j)
  }

  /** Past `(?:cpp|c)?\n?` at `c`: "cpp" in any case if present, else 'c' or 'C' if present,
      then one newline if present. */
  function AfterTag(s: string, c: nat): (q: nat)
    requires c <= |s|
    ensures c <= q <= |s|
    ensures forall k :: c <= k < q ==> s[k] != '`'
    ensures var d := if c + 3 <= |s| && LowerAscii(s[c..c + 3]) == "cpp" then c + 3
                     else if c < |s| && (s[c] == 'c' || s[c] == 'C') then c + 1
                     else c;
      q == if d < |s| && s[d] == '\n' then d + 1 else d
  {
    var d := if c + 3 <= |s| && LowerAscii(s[c..c + 3]) == "cpp" then c + 3
             else if c < |s| && (s[c] == 'c' || s[c] == 'C') then c + 1
             else c;
    assert forall k :: c <= k < d ==> s[k] != '`' by {
      if d == c + 3 {
        forall k | c <= k < d ensures s[k] != '`' {
          assert LowerAscii(s[c..c + 3])[k - c] == "cpp"[k - c];
        }
      }
    }
    if d < |s| && s[d] == '\n' then d + 1 else d
  }

  /** Group 1 of the corrected-code pattern when its match starts at `i`. */
  function CorrectedAt(s: string, i: nat): (r: Option<Span>)
    requires i <= |s|
    ensures r.Some? ==> i + |Label| <= r.value.lo <= r.value.hi <= |s|
    ensures r.Some? ==> LowerAscii(s[i..i + |Label|]) == Label
    ensures r.Some? ==> OccursAt(s, Fence, r.value.hi)
    ensures r.Some? ==> forall k :: r.value.lo <= k < r.value.hi ==> !OccursAt(s, Fence, k)
  {
    if !(i + |Label| <= |s| && LowerAscii(s[i..i + |Label|]) == Label) then None
    else
      var b := SkipSpaces(s, ColonEnd(s, i));
      if !OccursAt(s, Fence, b) then None
      else
        var lo := AfterTag(s, b + 3);
        match FindFrom(s, Fence, lo)
        case None => None
        case Some(j) => Some(Span(lo, j))
  }

  /** Past the label at `i` and its optional colon. */
  function ColonEnd(s: string, i: nat): (a: nat)
    requires i + |Label| <= |s|
    ensures i + |Label| <= a <= |s|
    ensures a == i + |Label| + 1 <==> (i + |Label| < |s| && s[i + |Label|] == ':')
    ensures a != i + |Label| ==> a == i + |Label| + 1
  {
    if i + |Label| < |s| && s[i + |Label|] == ':' then i + |Label| + 1 else i + |Label|
  }

  /** Group 1 starts after the opener, past the optional tag and newline. */
  lemma CorrectedAtStart(s: string, i: nat)
    requires i <= |s| && CorrectedAt(s, i).Some?
    ensures exists b: nat :: LabelOpener(s, i, b) && CorrectedAt(s, i).value.lo == AfterTag(s, b + 3)
  {
    var b := SkipSpaces(s, ColonEnd(s, i));
    assert LabelOpener(s, i, b);
  }

  /** The corrected-code pattern matches at `i` exactly when the text there has its shape. */
  lemma CorrectedAtIff(s: string, i: nat)
    requires i <= |s|
    ensures CorrectedAt(s, i).Some? <==> CorrectedShape(s, i)
  {
    if CorrectedAt(s, i).Some? {
      var r := CorrectedAt(s, i).value;
      CorrectedAtStart(s, i);
      var b: nat :| LabelOpener(s, i, b) && r.lo == AfterTag(s, b + 3);
      assert b + 3 <= r.hi && OccursAt(s, Fence, r.hi);
    } else if CorrectedShape(s, i) {
      var b: nat, j: nat :| LabelOpener(s, i, b) && b + 3 <= j && OccursAt(s, Fence, j);
      ShapeCorrected(s, i, b, j);
    }
  }

  /** At a label with an opener at `b` and a fence at `j` after it, the pattern matches. */
  lemma ShapeCorrected(s: string, i: nat, b: nat, j: nat)
    requires i + |Label| <= |s| && LowerAscii(s[i..i + |Label|]) == Label
    requires LabelOpener(s, i, b) && b + 3 <= j && OccursAt(s, Fence, j)
    ensures CorrectedAt(s, i).Some?
  {
    var a := ColonEnd(s, i);
    assert s[b] == s[b..b + 3][0];
    assert !IsSpace('`') && !IsSpace(':');
    SkipSpacesTo(s, a, b);
    var lo := AfterTag(s, b + 3);
    NoFenceWithout(s, b + 3, lo);
    FindFromSkip(s, Fence, b + 3, lo);
    assert FindFrom(s, Fence, b + 3).Some?;
    OpenedAt(s, i, b, lo);
  }

  /** Once the opener at `b` is found, the match exists when a fence follows `lo`. */
  lemma OpenedAt(s: string, i: nat, b: nat, lo: nat)
    requires i + |Label| <= |s| && LowerAscii(s[i..i + |Label|]) == Label
    requires b == SkipSpaces(s, ColonEnd(s, i))
    requires OccursAt(s, Fence, b) && lo == AfterTag(s, b + 3) && FindFrom(s, Fence, lo).Some?
    ensures CorrectedAt(s, i).Some?
  {
  }

  /** `search` with matcher `f` on positions `from..n`: the match at the first position
      where `f` finds one, if there is any. */
  function FirstMatch<T>(n: nat, from: nat, f: nat -> Option<T>): (r: Option<T>)
    requires from <= n
    ensures r.Some? ==> exists i :: from <= i <= n && f(i) == r && forall j :: from <= j < i ==> f(j).None?
    ensures r.None? ==> forall i :: from <= i <= n ==> f(i).None?
    decreases n - from
  {
    var here := f(from);
    if here.Some? then here
    else if from == n then None
    else FirstMatch(n, from + 1, f)
  }

  /** The corrected-code pattern's matcher on `s`. */
  function CorrectedMatcher(s: string): nat -> Option<Span> {
    (i: nat) => if i <= |s| then CorrectedAt(s, i) else None
  }

  /** The first match of the corrected-code pattern at or after `from`. */
  function FirstCorrected(s: string, from: nat): Option<Span>
    requires from <= |s|
  {
    FirstMatch(|s|, from, CorrectedMatcher(s))
  }

  /** `search` finds a corrected-code block exactly when some position at or after `from`
      has the pattern's shape, and then it is the match at the first such position. */
  lemma FirstCorrectedSpec(s: string, from: nat)
    requires from <= |s|
    ensures FirstCorrected(s, from).None? <==> forall i :: from <= i <= |s| ==> !CorrectedShape(s, i)
    ensures FirstCorrected(s, from).Some? ==>
      exists i :: from <= i <= |s| && CorrectedShape(s, i) && FirstCorrected(s, from) == CorrectedAt(s, i)
        && forall j :: from <= j < i ==> !CorrectedShape(s, j)
  {
    var f := CorrectedMatcher(s);
    var r := FirstMatch(|s|, from, f);
    if r.None? {
      forall i | from <= i <= |s| ensures !CorrectedShape(s, i) {
        assert f(i) == CorrectedAt(s, i);
        CorrectedAtIff(s, i);
      }
    } else {
      var i :| from <= i <= |s| && f(i) == r && forall j :: from <= j < i ==> f(j).None?;
      assert f(i) == CorrectedAt(s, i);
      CorrectedAtIff(s, i);
      forall j | from <= j < i ensures !CorrectedShape(s, j) {
        assert f(j) == CorrectedAt(s, j);
        CorrectedAtIff(s, j);
      }
    }
  }
}
