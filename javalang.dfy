/** The parts of the Java library the chat code relies on, stated on Dafny strings:
    String.split with a one-character pattern, String.replace, String.contains,
    List.remove(Object), and the unchecked exceptions the code can raise. */
module JavaLang {

  datatype Option<T> = None | Some(value: T)

  /** Unchecked exceptions that escape the chat code: an array index past the end
      (ArrayIndexOutOfBoundsException) and a missing map entry that is dereferenced
      (NullPointerException). */
  datatype Fault = ArrayIndexOutOfBounds | NullPointer

  /** `p` is a prefix of `s` (String.startsWith). */
  predicate IsPrefix(p: string, s: string) {
    |p| <= |s| && s[..|p|] == p
  }

  /** `sub` occurs in `s` starting at index `i`. */
  predicate OccursAt(s: string, sub: string, i: nat) {
    i + |sub| <= |s| && s[i..i + |sub|] == sub
  }

  /** String.contains, as a scan from the left; its contract ties it to the
      positions where `sub` occurs. */
  predicate Contains(s: string, sub: string): (b: bool)
    ensures b <==> exists i: nat :: OccursAt(s, sub, i)
    decreases |s|
  {
    if IsPrefix(sub, s) then
      assert OccursAt(s, sub, 0);
      true
    else if |s| == 0 then false
    else
      assert !OccursAt(s, sub, 0);
      assert forall i: nat :: 0 < i ==> (OccursAt(s, sub, i) <==> OccursAt(s[1..], sub, i - 1));
      assert forall j: nat :: OccursAt(s[1..], sub, j) ==> OccursAt(s, sub, j + 1);
      Contains(s[1..], sub)
  }

  /** String.replace(target, replacement): every occurrence of `pat`, scanned from
      the left and without overlap, is replaced by `rep`. */
  function ReplaceAll(s: string, pat: string, rep: string): (r: string)
    requires pat != ""
    ensures !Contains(s, pat) ==> r == s
    decreases |s|
  {
    if s == "" then ""
    else if IsPrefix(pat, s) then rep + ReplaceAll(s[|pat|..], pat, rep)
    else
      assert [s[0]] + s[1..] == s;
      [s[0]] + ReplaceAll(s[1..], pat, rep)
  }

  /** Pieces joined back together with `c` between neighbours. */
  function Join(ps: seq<string>, c: char): string
    requires |ps| >= 1
    decreases |ps|
  {
    if |ps| == 1 then ps[0] else ps[0] + [c] + Join(ps[1..], c)
  }

  /** All maximal runs of `s` between occurrences of `c`, empty runs included:
      one more piece than `s` has separators. */
  function Fields(s: string, c: char): (r: seq<string>)
    ensures |r| >= 1
    ensures forall k :: 0 <= k < |r| ==> c !in r[k]
    decreases |s|
  {
    if s == "" then [""]
    else
      var rest := Fields(s[1..], c);
      if s[0] == c then
        assert ([""] + rest)[1..] == rest;
        [""] + rest
      else
        var r := [[s[0]] + rest[0]] + rest[1..];
        assert |rest| > 1 ==> r[1..] == rest[1..];
        r
  }

  /** The pieces with every empty piece at the end removed. */
  function StripTrailingEmpty(ps: seq<string>): (r: seq<string>)
    ensures |r| <= |ps| && r == ps[..|r|]
    ensures r != [] ==> r[|r| - 1] != ""
    decreases |ps|
  {
    if ps != [] && ps[|ps| - 1] == "" then StripTrailingEmpty(ps[..|ps| - 1]) else ps
  }

  /** String.split(regex) with a regex that matches exactly the one character `c`
      (limit 0): split at every occurrence, drop the trailing empty pieces, and
      return the input itself when there is no occurrence at all ("" gives [""]). */
  function Split(s: string, c: char): (r: seq<string>)
    ensures forall k :: 0 <= k < |r| ==> c !in r[k]
  {
    if s == "" then [""] else StripTrailingEmpty(Fields(s, c))
  }

  /** The first field of `s` is `s` up to its first `c`, or all of `s` when it
      has none. */
  lemma {:induction false} FirstField(s: string, c: char)
    ensures var f := Fields(s, c)[0];
      IsPrefix(f, s) && c !in f && (|f| < |s| ==> s[|f|] == c)
    decreases |s|
  {
    if s != "" && s[0] != c {
      FirstField(s[1..], c);
      var f' := Fields(s[1..], c)[0];
      assert Fields(s, c)[0] == [s[0]] + f';
      assert s[..|f'| + 1] == [s[0]] + s[1..][..|f'|];
    }
  }

  /** List.remove(Object): the first occurrence of `x` is removed, if any. */
  function ListRemove<T(==)>(s: seq<T>, x: T): (r: seq<T>)
    ensures x !in s ==> r == s
    ensures x in s ==> |r| == |s| - 1
    ensures multiset(r) == multiset(s) - multiset{x}
    ensures forall y :: y in r ==> y in s
    decreases |s|
  {
    if s == [] then []
    else if s[0] == x then
      assert s == [s[0]] + s[1..];
      s[1..]
    else
      assert s == [s[0]] + s[1..];
      [s[0]] + ListRemove(s[1..], x)
  }

  /** List.remove(Object) takes out the first occurrence of `x`, at index `i`,
      and keeps every other element in its order. */
  lemma {:induction false} ListRemoveFirst<T>(s: seq<T>, x: T, i: nat)
    requires i < |s| && s[i] == x && x !in s[..i]
    ensures ListRemove(s, x) == s[..i] + s[i + 1..]
    decreases i
  {
    if i > 0 {
      assert s[0] == s[..i][0];
      assert s[1..][..i - 1] == s[..i][1..];
      ListRemoveFirst(s[1..], x, i - 1);
      assert s[..i] == [s[0]] + s[1..][..i - 1];
      assert s[1..][i..] == s[i + 1..];
    }
  }

  /** No element occurs twice. */
  predicate NoDuplicates<T(==)>(s: seq<T>) {
    forall i, j :: 0 <= i < j < |s| ==> s[i] != s[j]
  }

  // ---------------------------------------------------------------------------
  // Facts about the functions above.

  /** Joining the fields of `s` with `c` gives `s` back. */
  lemma {:induction false} JoinOfFields(s: string, c: char)
    ensures Join(Fields(s, c), c) == s
    decreases |s|
  {
    if s != "" {
      JoinOfFields(s[1..], c);
      var rest := Fields(s[1..], c);
      if s[0] != c {
        var r := Fields(s, c);
        if |rest| > 1 {
          assert r[1..] == rest[1..];
          assert Join(r, c) == [s[0]] + (rest[0] + [c] + Join(rest[1..], c));
        }
      } else {
        assert ([""] + rest)[1..] == rest;
      }
    }
  }

  /** Only empty pieces are dropped. */
  lemma {:induction false} StripOnlyEmpties(ps: seq<string>)
    ensures forall k :: |StripTrailingEmpty(ps)| <= k < |ps| ==> ps[k] == ""
    decreases |ps|
  {
    if ps != [] && ps[|ps| - 1] == "" {
      StripOnlyEmpties(ps[..|ps| - 1]);
    }
  }

  /** Splitting `x + c + y` into fields gives the fields of `x` followed by those of `y`. */
  lemma {:induction false} FieldsConcat(x: string, y: string, c: char)
    ensures Fields(x + [c] + y, c) == Fields(x, c) + Fields(y, c)
    decreases |x|
  {
    if x == "" {
      assert x + [c] + y == [c] + y;
      assert ([c] + y)[1..] == y;
    } else {
      var s := x + [c] + y;
      assert s[0] == x[0];
      assert s[1..] == x[1..] + [c] + y;
      FieldsConcat(x[1..], y, c);
    }
  }

  /** Text without the separator is one field. */
  lemma {:induction false} FieldsNoSep(s: string, c: char)
    requires c !in s
    ensures Fields(s, c) == [s]
    decreases |s|
  {
    if s != "" {
      FieldsNoSep(s[1..], c);
      assert [s[0]] + s[1..] == s;
    }
  }

  /** Pieces without the separator are recovered from their join. */
  lemma {:induction false} FieldsOfJoin(ps: seq<string>, c: char)
    requires |ps| >= 1
    requires forall k :: 0 <= k < |ps| ==> c !in ps[k]
    ensures Fields(Join(ps, c), c) == ps
    decreases |ps|
  {
    if |ps| == 1 {
      FieldsNoSep(ps[0], c);
    } else {
      FieldsOfJoin(ps[1..], c);
      FieldsConcat(ps[0], Join(ps[1..], c), c);
      FieldsNoSep(ps[0], c);
      assert [ps[0]] + ps[1..] == ps;
    }
  }

  /** Split inverts Join whenever no piece holds the separator and the last piece
      is not empty: this is how the two-word and three-word commands are read. */
  lemma SplitOfJoin(ps: seq<string>, c: char)
    requires |ps| >= 1 && ps[|ps| - 1] != ""
    requires forall k :: 0 <= k < |ps| ==> c !in ps[k]
    ensures Split(Join(ps, c), c) == ps
  {
    FieldsOfJoin(ps, c);
    var s := Join(ps, c);
    if s == "" {
      assert Fields(s, c) == [""];
    }
  }

  /** Java's split on a text without the separator returns the text alone. */
  lemma SplitNoSep(s: string, c: char)
    requires c !in s
    ensures Split(s, c) == [s]
  {
    FieldsNoSep(s, c);
  }

  /** The first word of `a + c + b` is `a` when `a` is a non-empty word. */
  lemma {:induction false} SplitFirst(a: string, b: string, c: char)
    requires a != "" && c !in a
    ensures |Split(a + [c] + b, c)| >= 1 && Split(a + [c] + b, c)[0] == a
  {
    FieldsConcat(a, b, c);
    FieldsNoSep(a, c);
    assert Fields(a + [c] + b, c)[0] == a;
    StripOnlyEmpties(Fields(a + [c] + b, c));
  }

  /** A text with no occurrence of the pattern is left alone by replace. */
  lemma {:induction false} ReplaceAllAbsent(s: string, pat: string, rep: string)
    requires pat != "" && pat[|pat| - 1] !in s
    ensures ReplaceAll(s, pat, rep) == s
    decreases |s|
  {
    if s != "" {
      assert !IsPrefix(pat, s) by {
        assert |pat| <= |s| ==> s[..|pat|][|pat| - 1] == s[|pat| - 1];
      }
      ReplaceAllAbsent(s[1..], pat, rep);
      assert [s[0]] + s[1..] == s;
    }
  }

  /** `b` occurs in `a + b + d`. */
  lemma {:induction false} ContainsMiddle(a: string, b: string, d: string)
    ensures Contains(a + b + d, b)
    decreases |a|
  {
    if a == "" {
      assert (a + b + d)[..|b|] == b;
    } else {
      assert (a + b + d)[1..] == a[1..] + b + d;
      ContainsMiddle(a[1..], b, d);
    }
  }
}
