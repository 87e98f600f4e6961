/**
 Splitting a text on a one-character separator, as Python's `str.split(",")`
 and JavaScript's `String.prototype.split(".")` do it: every separator ends a
 field, so `n` separators always give `n + 1` fields and the empty text gives
 one empty field. Join is its inverse.
 */
module Fields {
  import opened Wrappers

  /** Number of times `c` occurs in `s`. */
  function Occurrences(s: string, c: char): (n: nat)
    ensures n <= |s|
    ensures n == 0 <==> c !in s
  {
    if |s| == 0 then 0
    else (if s[0] == c then 1 else 0) + Occurrences(s[1..], c)
  }

  /** The fields of `s` between separators, in order. */
  function Split(s: string, sep: char): (parts: seq<string>)
    ensures |parts| == Occurrences(s, sep) + 1
    ensures forall i :: 0 <= i < |parts| ==> sep !in parts[i]
    decreases |s|
  {
    if |s| == 0 then [""]
    else
      var rest := Split(s[1..], sep);
      if s[0] == sep then [""] + rest
      else [[s[0]] + rest[0]] + rest[1..]
  }

  /** The fields written out with `sep` between each two of them. */
  function Join(parts: seq<string>, sep: char): string
  {
    if |parts| == 0 then ""
    else if |parts| == 1 then parts[0]
    else parts[0] + [sep] + Join(parts[1..], sep)
  }

  /** The last field of `s`: JavaScript's `s.split(sep).at(-1)`. */
  function LastField(s: string, sep: char): string
  {
    var parts := Split(s, sep);
    parts[|parts| - 1]
  }

  /** Joining the fields of a split gives back the text. */
  lemma {:induction false} JoinSplit(s: string, sep: char)
    ensures Join(Split(s, sep), sep) == s
    decreases |s|
  {
    if |s| > 0 {
      var rest := Split(s[1..], sep);
      JoinSplit(s[1..], sep);
      if s[0] == sep {
        assert Split(s, sep) == [""] + rest;
        assert ([""] + rest)[1..] == rest;
        assert s == [sep] + s[1..];
      } else if |rest| == 1 {
        assert Split(s, sep) == [[s[0]] + rest[0]];
        assert s == [s[0]] + s[1..];
      } else {
        var parts := Split(s, sep);
        assert parts[1..] == rest[1..];
        assert Join(rest, sep) == rest[0] + [sep] + Join(rest[1..], sep);
        assert s == [s[0]] + s[1..];
      }
    }
  }

  /** A text without the separator is one field. */
  lemma {:induction false} SplitWithoutSeparator(s: string, sep: char)
    requires sep !in s
    ensures Split(s, sep) == [s]
  {
    var parts := Split(s, sep);
    assert |parts| == 1;
    JoinSplit(s, sep);
  }

  /** A separator-free prefix is glued onto the first field of what follows. */
  lemma {:induction false} SplitPrefix(a: string, b: string, sep: char)
    requires sep !in a
    ensures Split(a + b, sep) == [a + Split(b, sep)[0]] + Split(b, sep)[1..]
    decreases |a|
  {
    if |a| > 0 {
      SplitPrefix(a[1..], b, sep);
      assert (a + b)[1..] == a[1..] + b;
      assert (a + b)[0] == a[0];
      assert [a[0]] + (a[1..] + Split(b, sep)[0]) == a + Split(b, sep)[0];
    } else {
      var parts := Split(b, sep);
      assert a + b == b;
      assert a + parts[0] == parts[0];
      assert parts == [parts[0]] + parts[1..];
    }
  }

  /** Splitting the join of separator-free fields gives back the fields. */
  lemma {:induction false} SplitJoin(parts: seq<string>, sep: char)
    requires |parts| >= 1
    requires forall i :: 0 <= i < |parts| ==> sep !in parts[i]
    ensures Split(Join(parts, sep), sep) == parts
    decreases |parts|
  {
    if |parts| == 1 {
      SplitWithoutSeparator(parts[0], sep);
    } else {
      var tail := Join(parts[1..], sep);
      SplitJoin(parts[1..], sep);
      var b := [sep] + tail;
      assert Join(parts, sep) == parts[0] + b;
      SplitPrefix(parts[0], b, sep);
      assert b[1..] == tail;
      assert Split(b, sep) == [""] + parts[1..];
      assert parts[0] + "" == parts[0];
      assert parts == [parts[0]] + parts[1..];
    }
  }

  /** Joining two non-empty lists of fields puts one separator between their joins. */
  lemma {:induction false} JoinAppend(p: seq<string>, q: seq<string>, sep: char)
    requires |p| >= 1 && |q| >= 1
    ensures Join(p + q, sep) == Join(p, sep) + [sep] + Join(q, sep)
    decreases |p|
  {
    if |p| == 1 {
      assert (p + q)[0] == p[0];
      assert (p + q)[1..] == q;
    } else {
      JoinAppend(p[1..], q, sep);
      assert (p + q)[0] == p[0];
      assert (p + q)[1..] == p[1..] + q;
    }
  }

  /** Splitting at a separator splits the two sides independently. */
  lemma SplitAround(a: string, b: string, sep: char)
    ensures Split(a + [sep] + b, sep) == Split(a, sep) + Split(b, sep)
  {
    var parts := Split(a, sep) + Split(b, sep);
    JoinSplit(a, sep);
    JoinSplit(b, sep);
    JoinAppend(Split(a, sep), Split(b, sep), sep);
    assert forall i :: 0 <= i < |parts| ==> sep !in parts[i] by {
      forall i | 0 <= i < |parts|
        ensures sep !in parts[i]
      {
        if i >= |Split(a, sep)| {
          assert parts[i] == Split(b, sep)[i - |Split(a, sep)|];
        }
      }
    }
    SplitJoin(parts, sep);
  }

  /** The last field does not look past the last separator. */
  lemma LastFieldAfter(a: string, b: string, sep: char)
    ensures LastField(a + [sep] + b, sep) == LastField(b, sep)
  {
    SplitAround(a, b, sep);
  }

  /**
   The last field is the text after the last separator: a separator-free
   suffix of `s` that is either all of `s` (no separator in `s`) or is
   preceded by a separator.
   */
  lemma {:induction false} LastFieldIsAfterLastSeparator(s: string, sep: char)
    ensures var r := LastField(s, sep);
      && |r| <= |s|
      && r == s[|s| - |r|..]
      && sep !in r
      && (sep in s <==> |r| < |s|)
      && (|r| < |s| ==> s[|s| - |r| - 1] == sep)
    decreases |s|
  {
    var r := LastField(s, sep);
    if |s| == 0 {
    } else if sep !in s {
      SplitWithoutSeparator(s, sep);
    } else {
      var rest := Split(s[1..], sep);
      LastFieldIsAfterLastSeparator(s[1..], sep);
      if s[0] == sep {
        assert Split(s, sep) == [""] + rest;
        assert r == rest[|rest| - 1];
      } else {
        assert sep in s[1..];
        assert |rest| > 1;
        assert r == rest[|rest| - 1];
      }
      assert s[1..][|s| - 1 - |r|..] == s[|s| - |r|..];
    }
  }

  /** What follows `prefix` in `s`, when `s` starts with it. */
  function StripPrefix(prefix: string, s: string): (r: Option<string>)
    ensures r.Some? <==> prefix <= s
    ensures r.Some? ==> prefix + r.value == s
  {
    if prefix <= s then Some(s[|prefix|..]) else None
  }

  /** What precedes `suffix` in `s`, when `s` ends with it. */
  function StripSuffix(suffix: string, s: string): (r: Option<string>)
    ensures r.Some? <==> |suffix| <= |s| && s[|s| - |suffix|..] == suffix
    ensures r.Some? ==> r.value + suffix == s
  {
    if |suffix| <= |s| && s[|s| - |suffix|..] == suffix then Some(s[..|s| - |suffix|])
    else None
  }
}
