/**
 * The JavaScript string operations the portal relies on, over `seq<char>`.
 * `toLowerCase` is modelled on the Latin-1 letters (U+0000 to U+00FF); `trim`
 * strips exactly the ECMAScript WhiteSpace and LineTerminator characters.
 */
module Strings {
  import opened Wrappers

  /** One character of `String.prototype.toLowerCase`, for the Latin-1 letters. */
  function LowerChar(c: char): char {
    if IsUpper(c) then (c as int + 32) as char else c
  }

  /** A Latin-1 capital: A to Z, and U+00C0 to U+00DE except the sign U+00D7. */
  predicate IsUpper(c: char) {
    ('A' <= c <= 'Z') || ('\U{00C0}' <= c <= '\U{00DE}' && c != '\U{00D7}')
  }

  function ToLower(s: string): (r: string)
    ensures |r| == |s|
    ensures forall i :: 0 <= i < |r| ==> !IsUpper(r[i])
    ensures forall i :: 0 <= i < |s| && !IsUpper(s[i]) ==> r[i] == s[i]
  {
    if s == [] then [] else [LowerChar(s[0])] + ToLower(s[1..])
  }

  lemma {:induction false} ToLowerAppend(a: string, b: string)
    ensures ToLower(a + b) == ToLower(a) + ToLower(b)
  {
    if a != [] {
      var ab := a + b;
      assert ab[0] == a[0] && ab[1..] == a[1..] + b;
      ToLowerAppend(a[1..], b);
      calc {
        ToLower(ab);
        [LowerChar(a[0])] + ToLower(a[1..] + b);
        [LowerChar(a[0])] + (ToLower(a[1..]) + ToLower(b));
        ([LowerChar(a[0])] + ToLower(a[1..])) + ToLower(b);
      }
    } else {
      assert a + b == b;
    }
  }

  lemma {:induction false} ToLowerIdempotent(s: string)
    ensures ToLower(ToLower(s)) == ToLower(s)
  {
    if s != [] {
      ToLowerIdempotent(s[1..]);
    }
  }

  /** ECMAScript WhiteSpace or LineTerminator: what `trim` removes. */
  predicate IsJsSpace(c: char) {
    || c == '\t' || c == '\n' || c == '\U{000B}' || c == '\U{000C}' || c == '\r'
    || c == ' ' || c == '\U{00A0}' || c == '\U{1680}'
    || ('\U{2000}' <= c <= '\U{200A}')
    || c == '\U{2028}' || c == '\U{2029}' || c == '\U{202F}' || c == '\U{205F}'
    || c == '\U{3000}' || c == '\U{FEFF}'
  }

  function TrimStart(s: string): (r: string)
    ensures |r| <= |s| && r == s[|s| - |r|..]
    ensures forall i :: 0 <= i < |s| - |r| ==> IsJsSpace(s[i])
    ensures r == [] || !IsJsSpace(r[0])
  {
    if s != [] && IsJsSpace(s[0]) then TrimStart(s[1..]) else s
  }

  function TrimEnd(s: string): (r: string)
    ensures |r| <= |s| && r == s[..|r|]
    ensures forall i :: |r| <= i < |s| ==> IsJsSpace(s[i])
    ensures r == [] || !IsJsSpace(r[|r| - 1])
  {
    if s != [] && IsJsSpace(s[|s| - 1]) then TrimEnd(s[..|s| - 1]) else s
  }

  /** `String.prototype.trim`. */
  function Trim(s: string): string {
    TrimEnd(TrimStart(s))
  }

  /** A string trims to "" exactly when it is all white space. */
  lemma TrimEmptyIff(s: string)
    ensures Trim(s) == "" <==> forall i :: 0 <= i < |s| ==> IsJsSpace(s[i])
  {
  }

  predicate IsPrefix(p: string, s: string) {
    |p| <= |s| && s[..|p|] == p
  }

  /** `hay.includes(needle)`. */
  predicate Contains(hay: string, needle: string)
    decreases |hay|
  {
    IsPrefix(needle, hay) || (hay != [] && Contains(hay[1..], needle))
  }

  /** `pat` occurs in `s` at position `k`. */
  predicate OccursAt(s: string, pat: string, k: int) {
    0 <= k && k + |pat| <= |s| && s[k..k + |pat|] == pat
  }

  /** `includes` is occurrence at some position. */
  lemma {:induction false} ContainsIff(hay: string, needle: string)
    ensures Contains(hay, needle) <==> exists k :: OccursAt(hay, needle, k)
  {
    if IsPrefix(needle, hay) {
      assert OccursAt(hay, needle, 0);
    }
    if hay != [] {
      ContainsIff(hay[1..], needle);
      if Contains(hay[1..], needle) {
        var k :| OccursAt(hay[1..], needle, k);
        assert hay[k + 1..k + 1 + |needle|] == hay[1..][k..k + |needle|];
        assert OccursAt(hay, needle, k + 1);
      }
      if exists k :: OccursAt(hay, needle, k) {
        var k :| OccursAt(hay, needle, k);
        if k > 0 {
          assert hay[1..][k - 1..k - 1 + |needle|] == hay[k..k + |needle|];
          assert OccursAt(hay[1..], needle, k - 1);
        }
      }
    } else {
      if exists k :: OccursAt(hay, needle, k) {
        var k :| OccursAt(hay, needle, k);
        assert needle == [];
      }
    }
  }

  /** Every string includes the empty string. */
  lemma ContainsEmpty(hay: string)
    ensures Contains(hay, "")
  {
    assert IsPrefix("", hay);
  }

  /** `s.indexOf(pat)`: the first position where `pat` occurs. */
  function IndexOf(s: string, pat: string): (r: Option<nat>)
    ensures r.Some? ==> OccursAt(s, pat, r.value)
    ensures r.Some? ==> forall k :: 0 <= k < r.value ==> !OccursAt(s, pat, k)
    ensures r.None? ==> forall k :: !OccursAt(s, pat, k)
    decreases |s|
  {
    if IsPrefix(pat, s) then Some(0)
    else if s == [] then None
    else
      var r := IndexOf(s[1..], pat);
      assert forall k :: 1 <= k ==> OccursAt(s, pat, k) == OccursAt(s[1..], pat, k - 1) by {
        forall k | 1 <= k ensures OccursAt(s, pat, k) == OccursAt(s[1..], pat, k - 1) {
          OccursShift(s, pat, k);
        }
      }
      if r.None? then None else Some(r.value + 1)
  }

  /** An occurrence after the first character is an occurrence in the rest. */
  lemma OccursShift(s: string, pat: string, k: int)
    requires s != [] && 1 <= k
    ensures OccursAt(s, pat, k) == OccursAt(s[1..], pat, k - 1)
  {
    if k + |pat| <= |s| {
      var here, there := s[k..k + |pat|], s[1..][k - 1..k - 1 + |pat|];
      forall j | 0 <= j < |pat| ensures here[j] == there[j] {
        assert s[1..][k - 1 + j] == s[k + j];
      }
      assert here == there;
    }
  }

  /** Appending text after the first occurrence does not move it. */
  lemma IndexOfAppend(a: string, b: string, pat: string)
    requires IndexOf(a, pat).Some?
    ensures IndexOf(a + b, pat) == IndexOf(a, pat)
  {
    var i := IndexOf(a, pat).value;
    assert (a + b)[i..i + |pat|] == a[i..i + |pat|];
    assert OccursAt(a + b, pat, i);
    var j := IndexOf(a + b, pat).value;
    assert j <= i;
    if j < i {
      assert (a + b)[j..j + |pat|] == a[j..j + |pat|];
      assert OccursAt(a, pat, j);
    }
  }

  /** A character absent from `a` first occurs in `a + [c] + b` right after `a`. */
  lemma IndexOfFirstChar(a: string, c: char, b: string)
    requires c !in a
    ensures IndexOf(a + [c] + b, [c]) == Some(|a|)
  {
    var s := a + [c] + b;
    assert s[|a|..|a| + 1] == [c];
    assert OccursAt(s, [c], |a|);
    forall k | 0 <= k < |a| ensures !OccursAt(s, [c], k) {
      assert s[k..k + 1] == [s[k]] && s[k] == a[k];
    }
  }

  /**
   * A pattern whose first character does not recur in it, appended to text
   * that does not include it, first occurs right after that text.
   */
  lemma IndexOfAppended(base: string, pat: string)
    requires |pat| > 0 && pat[0] !in pat[1..]
    requires !Contains(base, pat)
    ensures IndexOf(base + pat, pat) == Some(|base|)
  {
    ContainsIff(base, pat);
    var s := base + pat;
    assert s[|base|..|base| + |pat|] == pat;
    assert OccursAt(s, pat, |base|);
    forall k | 0 <= k < |base| ensures !OccursAt(s, pat, k) {
      if k + |pat| <= |base| {
        assert s[k..k + |pat|] == base[k..k + |pat|];
        assert !OccursAt(base, pat, k);
      } else {
        var j := |base| - k;
        assert s[k..k + |pat|][j] == pat[0];
        assert pat[j] in pat[1..];
      }
    }
  }

  /** A one-character string is included exactly when the character occurs. */
  lemma ContainsChar(s: string, c: char)
    ensures Contains(s, [c]) <==> c in s
  {
    ContainsIff(s, [c]);
    if Contains(s, [c]) {
      var k :| OccursAt(s, [c], k);
      assert s[k..k + 1][0] == s[k];
    }
    if c in s {
      var k :| 0 <= k < |s| && s[k] == c;
      assert s[k..k + 1] == [c];
      assert OccursAt(s, [c], k);
    }
  }

  /** `s.replace(pat, rep)` with a string pattern: only the first occurrence. */
  function ReplaceFirst(s: string, pat: string, rep: string): string {
    match IndexOf(s, pat)
    case None => s
    case Some(k) => s[..k] + rep + s[k + |pat|..]
  }

  /** `s.split(sep)` with a one-character separator. */
  function Split(s: string, sep: char): (parts: seq<string>)
    ensures |parts| >= 1
    ensures forall i :: 0 <= i < |parts| ==> sep !in parts[i]
  {
    if s == [] then [""]
    else if s[0] == sep then [""] + Split(s[1..], sep)
    else
      var rest := Split(s[1..], sep);
      [[s[0]] + rest[0]] + rest[1..]
  }

  /** `parts.join(sep)`. */
  function Join(parts: seq<string>, sep: char): string
    requires |parts| >= 1
  {
    if |parts| == 1 then parts[0] else parts[0] + [sep] + Join(parts[1..], sep)
  }

  /** Splitting loses nothing: joining the parts gives the string back. */
  lemma {:induction false} JoinSplit(s: string, sep: char)
    ensures Join(Split(s, sep), sep) == s
  {
    if s != [] {
      JoinSplit(s[1..], sep);
      var rest := Split(s[1..], sep);
      if s[0] == sep {
        assert Split(s, sep)[1..] == rest;
      } else if |rest| == 1 {
        assert [s[0]] + rest[0] == s;
      } else {
        var parts := Split(s, sep);
        assert parts[1..] == rest[1..];
        assert Join(parts, sep) == [s[0]] + rest[0] + [sep] + Join(rest[1..], sep);
        assert Join(rest, sep) == rest[0] + [sep] + Join(rest[1..], sep);
      }
    }
  }

  /** The first part of a split is everything before the first separator. */
  lemma {:induction false} SplitFirst(a: string, sep: char, b: string)
    requires sep !in a
    ensures Split(a + [sep] + b, sep) == [a] + Split(b, sep)
  {
    if a == [] {
      assert a + [sep] + b == [sep] + b;
      assert ([sep] + b)[1..] == b;
    } else {
      SplitFirst(a[1..], sep, b);
      var s := a + [sep] + b;
      assert s[0] == a[0] && s[1..] == a[1..] + [sep] + b;
      assert [a[0]] + a[1..] == a;
    }
  }

  /** There is one more part than there are separators. */
  lemma {:induction false} SplitLength(s: string, sep: char)
    ensures |Split(s, sep)| == multiset(s)[sep] + 1
  {
    if s != [] {
      SplitLength(s[1..], sep);
      assert s == [s[0]] + s[1..];
      assert multiset(s) == multiset{s[0]} + multiset(s[1..]);
    }
  }

  /** The last part of a split is everything after the last separator. */
  lemma {:induction false} SplitLast(a: string, sep: char, b: string)
    requires sep !in b
    ensures Split(a + [sep] + b, sep) == Split(a, sep) + [b]
  {
    if a == [] {
      assert a + [sep] + b == [sep] + b;
      assert ([sep] + b)[1..] == b;
      SplitWithoutSeparator(b, sep);
    } else {
      SplitLast(a[1..], sep, b);
      var s := a + [sep] + b;
      assert s[0] == a[0] && s[1..] == a[1..] + [sep] + b;
      var rest := Split(a[1..], sep);
      if a[0] != sep {
        assert (rest + [b])[0] == rest[0];
        if |rest| > 1 {
          assert (rest + [b])[1..] == rest[1..] + [b];
        } else {
          assert (rest + [b])[1..] == [b];
          assert rest[1..] == [];
        }
      }
    }
  }

  /** Splitting a string without separators gives it back whole. */
  lemma {:induction false} SplitWithoutSeparator(s: string, sep: char)
    requires sep !in s
    ensures Split(s, sep) == [s]
  {
    if s != [] {
      SplitWithoutSeparator(s[1..], sep);
      assert [s[0]] + s[1..] == s;
    }
  }

  /**
   * Code-point lexicographic order. It stands in for `localeCompare(...) <= 0`,
   * whose locale collation is not modelled.
   */
  predicate LexLe(a: string, b: string)
    decreases |a|
  {
    a == [] || (b != [] && (a[0] < b[0] || (a[0] == b[0] && LexLe(a[1..], b[1..]))))
  }

  lemma {:induction false} LexLeReflexive(a: string)
    ensures LexLe(a, a)
    decreases |a|
  {
    if a != [] {
      LexLeReflexive(a[1..]);
    }
  }

  lemma {:induction false} LexLeTotal(a: string, b: string)
    ensures LexLe(a, b) || LexLe(b, a)
    decreases |a|
  {
    if a != [] && b != [] && a[0] == b[0] {
      LexLeTotal(a[1..], b[1..]);
    }
  }

  lemma {:induction false} LexLeTransitive(a: string, b: string, c: string)
    requires LexLe(a, b) && LexLe(b, c)
    ensures LexLe(a, c)
    decreases |a|
  {
    if a != [] && a[0] == b[0] && b[0] == c[0] {
      LexLeTransitive(a[1..], b[1..], c[1..]);
    }
  }
}
