/** Option and Result, the failure-carrying wrappers the model uses. */
module Outcomes {

  datatype Option<+T> = None | Some(value: T)

  datatype Result<+T, +E> = Ok(value: T) | Err(error: E)
}

/**
  The few Python string operations the D domain is built on: `str.split`
  with an explicit one-character separator, `str.strip()` and `str.find`.
  They are modelled with Python's semantics (empty fields are kept by
  `split`, `strip` removes every character `str.isspace` accepts).
 */
module PyStr {

  /** Index of the first `c` in `s`, or `|s|` when `s` holds no `c`. */
  function Find(s: string, c: char): (i: nat)
    ensures i <= |s|
    ensures forall k :: 0 <= k < i ==> s[k] != c
    ensures i < |s| ==> s[i] == c
    ensures i == |s| <==> c !in s
  {
    if s == [] || s[0] == c then 0 else 1 + Find(s[1..], c)
  }

  /** Number of occurrences of `c` in `s`. */
  function Count(s: string, c: char): (n: nat)
    ensures n <= |s|
    ensures n == 0 <==> c !in s
  {
    if s == [] then 0 else (if s[0] == c then 1 else 0) + Count(s[1..], c)
  }

  /** `f` is the longest run of `s` free of `c` that starts at `start`:
      the field a `split(c)` yields when a field begins at `start`. */
  ghost predicate FieldAt(s: string, c: char, start: nat, f: string)
  {
    && start + |f| <= |s|
    && s[start..start + |f|] == f
    && c !in f
    && (start + |f| == |s| || s[start + |f|] == c)
  }

  /** At a given start there is only one longest separator-free run. */
  lemma FieldAtUnique(s: string, c: char, start: nat, f1: string, f2: string)
    requires FieldAt(s, c, start, f1) && FieldAt(s, c, start, f2)
    ensures f1 == f2
  {
  }

  /** The longest separator-free run at `start` extends over any
      separator-free text found at `start`. */
  lemma FieldAtCovers(s: string, c: char, start: nat, f: string, t: string)
    requires FieldAt(s, c, start, f)
    requires start + |t| <= |s| && s[start..start + |t|] == t && c !in t
    ensures |t| <= |f| && f[..|t|] == t
  {
    assert forall k :: 0 <= k < |t| ==> f[k] == s[start + k] == t[k];
  }

  /** A field of a suffix is a field of the whole string at the shifted start. */
  lemma FieldAtShift(s: string, c: char, k: nat, f: string)
    requires k <= |s| && FieldAt(s[k..], c, 0, f)
    ensures FieldAt(s, c, k, f)
  {
    assert s[k..][0..|f|] == s[k..k + |f|];
  }

  /** Python's `s.split(sep)` for a one-character `sep`: one more field
      than there are separators, none of them holding the separator. */
  function Split(s: string, sep: char): (fields: seq<string>)
    ensures |fields| == Count(s, sep) + 1
    ensures forall i :: 0 <= i < |fields| ==> sep !in fields[i]
  {
    if s == [] then [""]
    else
      var rest := Split(s[1..], sep);
      if s[0] == sep then [""] + rest
      else [[s[0]] + rest[0]] + rest[1..]
  }

  /** Python's `sep.join(fields)`. */
  function Join(fields: seq<string>, sep: char): string
  {
    if |fields| == 0 then ""
    else if |fields| == 1 then fields[0]
    else fields[0] + [sep] + Join(fields[1..], sep)
  }

  /** Joining the fields of a split with the same separator gives back the string. */
  lemma {:induction false} JoinSplit(s: string, sep: char)
    ensures Join(Split(s, sep), sep) == s
  {
    if s != [] {
      var rest := Split(s[1..], sep);
      JoinSplit(s[1..], sep);
      if s[0] == sep {
        assert ([""] + rest)[1..] == rest;
      } else if |rest| > 1 {
        var fields := [[s[0]] + rest[0]] + rest[1..];
        assert fields[1..] == rest[1..];
        assert Join(rest, sep) == rest[0] + [sep] + Join(rest[1..], sep);
      }
    }
  }

  /** A string without the separator is a single field. */
  lemma {:induction false} SplitNoSep(s: string, sep: char)
    requires sep !in s
    ensures Split(s, sep) == [s]
  {
    if s != [] {
      SplitNoSep(s[1..], sep);
      assert [s[0]] + s[1..] == s;
    }
  }

  /** A separator-free head followed by the separator contributes exactly one field. */
  lemma {:induction false} SplitCons(head: string, sep: char, tail: string)
    requires sep !in head
    ensures Split(head + [sep] + tail, sep) == [head] + Split(tail, sep)
  {
    var s := head + [sep] + tail;
    if head == [] {
      assert s[1..] == tail;
    } else {
      assert s[1..] == head[1..] + [sep] + tail;
      SplitCons(head[1..], sep, tail);
      assert [s[0]] + head[1..] == head;
    }
  }

  /** Splitting the join of separator-free fields gives back the fields. */
  lemma {:induction false} SplitJoin(fields: seq<string>, sep: char)
    requires |fields| >= 1
    requires forall i :: 0 <= i < |fields| ==> sep !in fields[i]
    ensures Split(Join(fields, sep), sep) == fields
  {
    if |fields| == 1 {
      SplitNoSep(fields[0], sep);
    } else {
      SplitJoin(fields[1..], sep);
      SplitCons(fields[0], sep, Join(fields[1..], sep));
      assert [fields[0]] + fields[1..] == fields;
    }
  }

  /** The first field ends at the first separator; the remaining fields are
      the split of what follows it. */
  lemma SplitFirst(s: string, sep: char)
    ensures Split(s, sep)[0] == s[..Find(s, sep)]
    ensures FieldAt(s, sep, 0, Split(s, sep)[0])
    ensures sep in s ==> Split(s, sep)[1..] == Split(s[Find(s, sep) + 1..], sep)
  {
    var i := Find(s, sep);
    if i < |s| {
      SplitAtFind(s, sep);
    } else {
      SplitNoSep(s, sep);
      assert s[..i] == s;
    }
    FirstFieldAt(s, sep);
  }

  lemma SplitAtFind(s: string, sep: char)
    requires Find(s, sep) < |s|
    ensures Split(s, sep) == [s[..Find(s, sep)]] + Split(s[Find(s, sep) + 1..], sep)
  {
    var i := Find(s, sep);
    var head, tail := s[..i], s[i + 1..];
    assert s == head + [sep] + tail;
    SplitCons(head, sep, tail);
  }

  lemma FirstFieldAt(s: string, sep: char)
    ensures FieldAt(s, sep, 0, s[..Find(s, sep)])
  {
    var i := Find(s, sep);
    assert s[0..i] == s[..i];
  }

  /** Characters Python's `str.isspace` accepts (and `str.strip()` removes). */
  predicate IsSpace(ch: char)
  {
    || ch == ' ' || ch == '\t' || ch == '\n' || ch == '\r'
    || ch == '\U{B}' || ch == '\U{C}'
    || ('\U{1C}' <= ch <= '\U{1F}')
    || ch == '\U{85}' || ch == '\U{A0}' || ch == '\U{1680}'
    || ('\U{2000}' <= ch <= '\U{200A}')
    || ch == '\U{2028}' || ch == '\U{2029}' || ch == '\U{202F}' || ch == '\U{205F}' || ch == '\U{3000}'
  }

  /** Neither starts nor ends with whitespace: what `strip()` leaves. */
  predicate Trimmed(s: string)
  {
    s == [] || (!IsSpace(s[0]) && !IsSpace(s[|s| - 1]))
  }

  ghost predicate AllSpace(s: string)
  {
    forall k :: 0 <= k < |s| ==> IsSpace(s[k])
  }

  /** Python's `s.lstrip()`: the suffix left after dropping leading whitespace. */
  function StripLeft(s: string): (r: string)
    ensures |r| <= |s| && r == s[|s| - |r|..]
    ensures AllSpace(s[..|s| - |r|])
    ensures r == [] || !IsSpace(r[0])
  {
    if s != [] && IsSpace(s[0]) then StripLeft(s[1..]) else s
  }

  /** Python's `s.rstrip()`: the prefix left after dropping trailing whitespace. */
  function StripRight(s: string): (r: string)
    ensures |r| <= |s| && r == s[..|r|]
    ensures AllSpace(s[|r|..])
    ensures r == [] || !IsSpace(r[|r| - 1])
  {
    if s != [] && IsSpace(s[|s| - 1]) then StripRight(s[..|s| - 1]) else s
  }

  /** Python's `s.strip()`: `s` with its leading and trailing whitespace removed. */
  function Strip(s: string): (r: string)
    ensures |r| <= |s|
    ensures r == [] || (!IsSpace(r[0]) && !IsSpace(r[|r| - 1]))
  {
    StripRight(StripLeft(s))
  }

  /** `r` sits at `lo` in `s` with only whitespace before and after it. */
  ghost predicate EdgeTrim(s: string, r: string, lo: nat)
  {
    && lo + |r| <= |s|
    && s[lo..lo + |r|] == r
    && AllSpace(s[..lo])
    && AllSpace(s[lo + |r|..])
  }

  /** `strip()` removes only whitespace, and only at the two ends: the result
      is a slice of `s` with whitespace on either side of it. */
  lemma StripRemovesOnlyEdges(s: string)
    ensures exists lo :: EdgeTrim(s, Strip(s), lo)
  {
    var l := StripLeft(s);
    var r := StripRight(l);
    var lo := |s| - |l|;
    assert s[lo..] == l;
    assert s[lo..lo + |r|] == r by {
      assert s[lo..lo + |r|] == l[..|r|];
    }
    assert AllSpace(s[lo + |r|..]) by {
      assert s[lo + |r|..] == l[|r|..];
    }
    assert Strip(s) == r;
    assert EdgeTrim(s, r, lo);
  }

  /** Stripping twice is stripping once. */
  lemma StripIdempotent(s: string)
    ensures Strip(Strip(s)) == Strip(s)
  {
    var r := Strip(s);
    StripUnchanged(r);
  }

  /** A string that neither starts nor ends with whitespace is left as it is. */
  lemma StripUnchanged(s: string)
    requires Trimmed(s)
    ensures Strip(s) == s
  {
    assert StripLeft(s) == s;
    assert StripRight(s) == s;
  }
}
