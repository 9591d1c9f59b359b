/** Splitting and joining text at a one-character separator, and trimming white space. */
module Text {

  predicate HasPrefix(s: string, prefix: string) {
    prefix <= s
  }

  /** `strings.Split`: never empty, and no part contains the separator. */
  function Split(s: string, sep: char): (parts: seq<string>)
    ensures |parts| > 0
    ensures forall i | 0 <= i < |parts| :: sep !in parts[i]
  {
    if s == "" then [""]
    else
      var rest := Split(s[1..], sep);
      if s[0] == sep then [""] + rest else [[s[0]] + rest[0]] + rest[1..]
  }

  function Join(parts: seq<string>, sep: char): string {
    if parts == [] then ""
    else if |parts| == 1 then parts[0]
    else parts[0] + [sep] + Join(parts[1..], sep)
  }

  lemma {:induction false} JoinSplit(s: string, sep: char)
    ensures Join(Split(s, sep), sep) == s
  {
    if s != "" {
      JoinSplit(s[1..], sep);
      var rest := Split(s[1..], sep);
      if s[0] != sep && |rest| > 1 {
        assert ([[s[0]] + rest[0]] + rest[1..])[1..] == rest[1..];
      }
      assert s == [s[0]] + s[1..];
      assert ([""] + rest)[1..] == rest;
    }
  }

  /** Text without the separator is one part. */
  lemma {:induction false} SplitWhole(s: string, sep: char)
    requires sep !in s
    ensures Split(s, sep) == [s]
  {
    if s != "" {
      assert forall c | c in s[1..] :: c in s;
      SplitWhole(s[1..], sep);
      assert s == [s[0]] + s[1..];
    }
  }

  lemma {:induction false} SplitConcat(a: string, b: string, sep: char)
    ensures Split(a + [sep] + b, sep) == Split(a, sep) + Split(b, sep)
  {
    if a == "" {
      assert ("" + [sep] + b)[1..] == b;
    } else {
      assert (a + [sep] + b)[1..] == a[1..] + [sep] + b;
      SplitConcat(a[1..], b, sep);
    }
  }

  lemma {:induction false} SplitJoin(parts: seq<string>, sep: char)
    requires parts != [] && forall i | 0 <= i < |parts| :: sep !in parts[i]
    ensures Split(Join(parts, sep), sep) == parts
  {
    SplitWhole(parts[0], sep);
    if |parts| > 1 {
      SplitJoin(parts[1..], sep);
      SplitConcat(parts[0], Join(parts[1..], sep), sep);
    }
  }

  lemma {:induction false} JoinConcat(a: seq<string>, b: seq<string>, sep: char)
    requires a != [] && b != []
    ensures Join(a + b, sep) == Join(a, sep) + [sep] + Join(b, sep)
  {
    if |a| > 1 {
      JoinConcat(a[1..], b, sep);
      assert (a + b)[1..] == a[1..] + b;
    } else {
      assert (a + b)[1..] == b;
    }
  }

  // ----- White space -----

  /** Go's `unicode.IsSpace`. */
  predicate IsSpace(c: char) {
    || c in {'\t', '\n', '\U{0B}', '\U{0C}', '\r', ' ', '\U{85}', '\U{A0}', '\U{1680}'}
    || '\U{2000}' <= c <= '\U{200A}'
    || c in {'\U{2028}', '\U{2029}', '\U{202F}', '\U{205F}', '\U{3000}'}
  }

  function TrimLeft(s: string): (t: string)
    ensures t == "" || !IsSpace(t[0])
  {
    if s == "" || !IsSpace(s[0]) then s else TrimLeft(s[1..])
  }

  function TrimRight(s: string): (t: string)
    ensures t == "" || !IsSpace(t[|t| - 1])
    ensures t <= s && forall i | |t| <= i < |s| :: IsSpace(s[i])
  {
    if s == "" || !IsSpace(s[|s| - 1]) then s else TrimRight(s[..|s| - 1])
  }

  function TrimSpace(s: string): string {
    TrimRight(TrimLeft(s))
  }

  predicate AllSpace(s: string) {
    forall i | 0 <= i < |s| :: IsSpace(s[i])
  }

  lemma {:induction false} TrimLeftCuts(s: string)
    ensures |TrimLeft(s)| <= |s| && TrimLeft(s) == s[|s| - |TrimLeft(s)|..] && AllSpace(s[..|s| - |TrimLeft(s)|])
  {
    if s != "" && IsSpace(s[0]) {
      TrimLeftCuts(s[1..]);
      var n := |s| - |TrimLeft(s)|;
      assert s[..n] == [s[0]] + s[1..][..n - 1];
      assert s[n..] == s[1..][n - 1..];
    }
  }

  /** Trimming cuts white space off both ends, and all of it. */
  lemma TrimSpaceCuts(s: string) returns (left: string, right: string)
    ensures s == left + TrimSpace(s) + right && AllSpace(left) && AllSpace(right)
    ensures TrimSpace(s) != "" ==> !IsSpace(TrimSpace(s)[0]) && !IsSpace(TrimSpace(s)[|TrimSpace(s)| - 1])
  {
    TrimLeftCuts(s);
    var middle := TrimLeft(s);
    left, right := s[..|s| - |middle|], middle[|TrimRight(middle)|..];
    TrimRightCuts(middle);
    assert s == left + middle;
    assert left + (TrimRight(middle) + right) == left + TrimRight(middle) + right;
  }

  lemma TrimRightCuts(s: string)
    ensures var t := TrimRight(s);
            && s == t + s[|t|..] && AllSpace(s[|t|..])
            && (t != "" && !IsSpace(s[0]) ==> !IsSpace(t[0]) && !IsSpace(t[|t| - 1]))
  {
    var t := TrimRight(s);
    forall i | 0 <= i < |s[|t|..]| ensures IsSpace(s[|t|..][i]) { assert s[|t|..][i] == s[|t| + i]; }
  }

  /** White space up to `i`, and there the mark. */
  predicate MarkedAt(s: string, i: nat, mark: string) {
    i + |mark| <= |s| && AllSpace(s[..i]) && s[i..i + |mark|] == mark
  }

  predicate NoSpace(mark: string) {
    mark != "" && forall i | 0 <= i < |mark| :: !IsSpace(mark[i])
  }

  lemma TrimRightKeepsMark(s: string, mark: string)
    requires NoSpace(mark)
    ensures HasPrefix(TrimRight(s), mark) <==> HasPrefix(s, mark)
  {
    if HasPrefix(s, mark) {
      var last := |mark| - 1;
      assert s[last] == mark[last];
      assert !IsSpace(s[last]);
      assert |TrimRight(s)| > last;
    }
  }

  lemma SliceOfRest(s: string, n: nat, m: nat)
    requires n + m <= |s|
    ensures s[n..][..m] == s[n..n + m] && s[n..][m..] == s[n + m..]
  {
  }

  lemma TrimmedHasPrefix(s: string, mark: string)
    requires NoSpace(mark)
    ensures HasPrefix(TrimSpace(s), mark) <==> exists i: nat :: MarkedAt(s, i, mark)
  {
    TrimLeftCuts(s);
    var middle := TrimLeft(s);
    var n := |s| - |middle|;
    TrimRightKeepsMark(middle, mark);
    if n + |mark| <= |s| { SliceOfRest(s, n, |mark|); }
    if HasPrefix(middle, mark) {
      assert MarkedAt(s, n, mark);
    }
    if i: nat :| MarkedAt(s, i, mark) {
      MarkIsFirst(s, i, mark, n);
      assert middle[..|mark|] == mark;
    }
  }

  lemma SpacesAt(s: string, n: nat)
    requires n <= |s| && AllSpace(s[..n])
    ensures forall j | 0 <= j < n :: IsSpace(s[j])
  {
    forall j | 0 <= j < n ensures IsSpace(s[j]) { assert s[..n][j] == s[j]; }
  }

  /** The mark begins where the white space ends. */
  lemma MarkIsFirst(s: string, i: nat, mark: string, n: nat)
    requires NoSpace(mark) && MarkedAt(s, i, mark)
    requires n <= |s| && AllSpace(s[..n]) && (n < |s| ==> !IsSpace(s[n]))
    ensures i == n
  {
    assert s[i] == s[i..i + |mark|][0] == mark[0];
    SpacesAt(s, i);
    SpacesAt(s, n);
  }

  lemma TrimRightIs(s: string, mark: string)
    requires NoSpace(mark)
    ensures TrimRight(s) == mark <==> HasPrefix(s, mark) && AllSpace(s[|mark|..])
  {
    TrimRightCuts(s);
    if HasPrefix(s, mark) && AllSpace(s[|mark|..]) {
      TrimRightKeepsMark(s, mark);
      SpacesFrom(s, |mark|);
    }
  }

  lemma SpacesFrom(s: string, n: nat)
    requires n <= |s| && AllSpace(s[n..])
    ensures forall j | n <= j < |s| :: IsSpace(s[j])
  {
    forall j | n <= j < |s| ensures IsSpace(s[j]) { assert s[n..][j - n] == s[j]; }
  }

  lemma TrimmedIs(s: string, mark: string)
    requires NoSpace(mark)
    ensures TrimSpace(s) == mark <==> exists i: nat :: MarkedAt(s, i, mark) && AllSpace(s[i + |mark|..])
  {
    TrimLeftCuts(s);
    var middle := TrimLeft(s);
    var n := |s| - |middle|;
    TrimRightIs(middle, mark);
    if n + |mark| <= |s| { SliceOfRest(s, n, |mark|); }
    if TrimSpace(s) == mark {
      assert MarkedAt(s, n, mark);
    }
    if i: nat :| MarkedAt(s, i, mark) && AllSpace(s[i + |mark|..]) {
      MarkIsFirst(s, i, mark, n);
      assert middle[..|mark|] == mark;
    }
  }
}
