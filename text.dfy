/**
  String helpers shared by the models: counting a character, splitting on a
  separator the way Python's `str.split(sep)` does, joining back, and trimming
  with a caller-supplied whitespace predicate (Python's `str.strip()` and
  JavaScript's `String.prototype.trim` use different whitespace sets).
 */
module Text {

  /** Number of occurrences of `c` in `s`. */
  function Count(s: string, c: char): (n: nat)
  {
    if s == [] then 0 else (if s[0] == c then 1 else 0) + Count(s[1..], c)
  }

  /**
    Python's `s.split(sep)` for a one-character separator: every occurrence of
    `sep` ends a part, nothing is collapsed, so "" gives [""] and "a,,b" keeps
    an empty middle part.
   */
  function Split(s: string, sep: char): (parts: seq<string>)
    ensures |parts| == Count(s, sep) + 1
    ensures forall i :: 0 <= i < |parts| ==> sep !in parts[i]
  {
    if s == [] then [""]
    else
      var rest := Split(s[1..], sep);
      if s[0] == sep then [""] + rest
      else [[s[0]] + rest[0]] + rest[1..]
  }

  /** `sep.join(parts)`. */
  function Join(parts: seq<string>, sep: char): (joined: string)
  {
    if |parts| == 0 then ""
    else if |parts| == 1 then parts[0]
    else parts[0] + [sep] + Join(parts[1..], sep)
  }

  /** Joining the parts again gives back the split string. */
  lemma {:induction false} JoinSplit(s: string, sep: char)
    ensures Join(Split(s, sep), sep) == s
  {
    if s != [] {
      var rest := Split(s[1..], sep);
      JoinSplit(s[1..], sep);
      if s[0] == sep {
        assert Split(s, sep) == [""] + rest;
        assert ([""] + rest)[1..] == rest;
        assert s == "" + [sep] + s[1..];
      } else {
        var first := [s[0]] + rest[0];
        assert Split(s, sep) == [first] + rest[1..];
        if |rest| == 1 {
          assert s == [s[0]] + s[1..];
        } else {
          assert ([first] + rest[1..])[1..] == rest[1..];
          assert Join(rest, sep) == rest[0] + [sep] + Join(rest[1..], sep);
          assert s == [s[0]] + s[1..];
        }
      }
    }
  }

  /** A prefix free of the separator stays glued to the first part. */
  lemma {:induction false} SplitPrefix(p: string, t: string, sep: char)
    requires sep !in p
    ensures Split(p + t, sep) == [p + Split(t, sep)[0]] + Split(t, sep)[1..]
  {
    if p != [] {
      SplitPrefix(p[1..], t, sep);
      assert (p + t)[1..] == p[1..] + t;
      assert (p + t)[0] == p[0];
      assert [p[0]] + (p[1..] + Split(t, sep)[0]) == p + Split(t, sep)[0];
    } else {
      var parts := Split(t, sep);
      assert p + t == t && p + parts[0] == parts[0];
      assert parts == [parts[0]] + parts[1..];
    }
  }

  /** Splitting a join of separator-free parts gives back the parts. */
  lemma {:induction false} SplitJoin(parts: seq<string>, sep: char)
    requires |parts| >= 1
    requires forall i :: 0 <= i < |parts| ==> sep !in parts[i]
    ensures Split(Join(parts, sep), sep) == parts
  {
    if |parts| == 1 {
      SplitPrefix(parts[0], "", sep);
      assert parts[0] + "" == parts[0];
    } else {
      var tail := Join(parts[1..], sep);
      SplitJoin(parts[1..], sep);
      assert Join(parts, sep) == parts[0] + ([sep] + tail);
      SplitPrefix(parts[0], [sep] + tail, sep);
      assert ([sep] + tail)[1..] == tail;
      assert Split([sep] + tail, sep) == [""] + parts[1..];
      assert parts[0] + "" == parts[0];
      assert [parts[0]] + parts[1..] == parts;
    }
  }

  /** Every character of `s` satisfies `ws`. */
  predicate AllIn(s: string, ws: char -> bool)
  {
    forall i :: 0 <= i < |s| ==> ws(s[i])
  }

  /** Drops the longest prefix of `ws` characters. */
  function TrimStart(s: string, ws: char -> bool): (rest: string)
  {
    if s != [] && ws(s[0]) then TrimStart(s[1..], ws) else s
  }

  /** What TrimStart keeps is a suffix, what it drops is whitespace, and it stops at a non-whitespace character. */
  lemma {:induction false} TrimStartShape(s: string, ws: char -> bool)
    ensures var r := TrimStart(s, ws);
      && |r| <= |s| && r == s[|s| - |r|..]
      && AllIn(s[..|s| - |r|], ws)
      && (r == [] || !ws(r[0]))
  {
    if s != [] && ws(s[0]) {
      TrimStartShape(s[1..], ws);
      var r := TrimStart(s, ws);
      assert s[1..][|s| - 1 - |r|..] == s[|s| - |r|..];
      var dropped := s[..|s| - |r|];
      forall i | 0 <= i < |dropped| ensures ws(dropped[i]) {
        if i > 0 {
          assert dropped[i] == s[1..][..|s| - 1 - |r|][i - 1];
        }
      }
    }
  }

  /** Drops the longest suffix of `ws` characters. */
  function TrimEnd(s: string, ws: char -> bool): (rest: string)
  {
    if s != [] && ws(s[|s| - 1]) then TrimEnd(s[..|s| - 1], ws) else s
  }

  /** What TrimEnd keeps is a prefix, what it drops is whitespace, and it stops at a non-whitespace character. */
  lemma {:induction false} TrimEndShape(s: string, ws: char -> bool)
    ensures var r := TrimEnd(s, ws);
      && |r| <= |s| && r == s[..|r|]
      && AllIn(s[|r|..], ws)
      && (r == [] || !ws(r[|r| - 1]))
  {
    if s != [] && ws(s[|s| - 1]) {
      var p := s[..|s| - 1];
      TrimEndShape(p, ws);
      var r := TrimEnd(s, ws);
      assert p[..|r|] == s[..|r|];
      forall i | 0 <= i < |s| - |r| ensures ws(s[|r|..][i]) {
        if i < |s| - 1 - |r| {
          assert s[|r|..][i] == p[|r|..][i];
        }
      }
    }
  }

  /** Drops whitespace at both ends (`strip()` / `trim()`). */
  function Trim(s: string, ws: char -> bool): (r: string)
    ensures r == [] || (!ws(r[0]) && !ws(r[|r| - 1]))
  {
    var t := TrimStart(s, ws);
    var r := TrimEnd(t, ws);
    TrimStartShape(s, ws);
    TrimEndShape(t, ws);
    assert r != [] ==> r[0] == t[0];
    r
  }

  /**
    The trimmed string is the slice of `s` between a whitespace prefix and a
    whitespace suffix.
   */
  lemma TrimSlice(s: string, ws: char -> bool)
    ensures var k := |s| - |TrimStart(s, ws)|; var r := Trim(s, ws);
      && 0 <= k && k + |r| <= |s| && s[k..k + |r|] == r
      && AllIn(s[..k], ws) && AllIn(s[k + |r|..], ws)
  {
    var t := TrimStart(s, ws);
    TrimStartShape(s, ws);
    TrimEndShape(t, ws);
    PaddedSlice(s, t, TrimEnd(t, ws), ws);
  }

  /** A whitespace-padded part of a whitespace-padded suffix is a whitespace-padded slice. */
  lemma PaddedSlice(s: string, t: string, r: string, ws: char -> bool)
    requires |t| <= |s| && t == s[|s| - |t|..] && AllIn(s[..|s| - |t|], ws)
    requires |r| <= |t| && r == t[..|r|] && AllIn(t[|r|..], ws)
    ensures var k := |s| - |t|;
      && k + |r| <= |s| && s[k..k + |r|] == r
      && AllIn(s[..k], ws) && AllIn(s[k + |r|..], ws)
  {
    var k := |s| - |t|;
    assert t[|r|..] == s[k + |r|..];
  }

  /** Trimming only removes characters, so it cannot introduce one. */
  lemma TrimAbsent(s: string, ws: char -> bool, c: char)
    requires c !in s
    ensures c !in Trim(s, ws)
  {
    TrimSlice(s, ws);
  }

  lemma {:induction false} TrimStartPadded(a: string, m: string, ws: char -> bool)
    requires AllIn(a, ws)
    requires m == [] || !ws(m[0])
    ensures TrimStart(a + m, ws) == m
  {
    if a != [] {
      assert (a + m)[1..] == a[1..] + m;
      assert AllIn(a[1..], ws) by {
        forall i | 0 <= i < |a[1..]| ensures ws(a[1..][i]) { assert a[1..][i] == a[i + 1]; }
      }
      TrimStartPadded(a[1..], m, ws);
    } else {
      assert a + m == m;
    }
  }

  lemma {:induction false} TrimEndPadded(m: string, b: string, ws: char -> bool)
    requires AllIn(b, ws)
    requires m == [] || !ws(m[|m| - 1])
    ensures TrimEnd(m + b, ws) == m
  {
    if b != [] {
      var s := m + b;
      assert s[|s| - 1] == b[|b| - 1];
      var b' := b[..|b| - 1];
      assert s[..|s| - 1] == m + b';
      assert AllIn(b', ws) by {
        forall i | 0 <= i < |b'| ensures ws(b'[i]) { assert b'[i] == b[i]; }
      }
      TrimEndPadded(m, b', ws);
    } else {
      assert m + b == m;
    }
  }

  /**
    Trim is determined by the padding: whenever `s` is whitespace, then a core
    with non-whitespace ends, then whitespace, the trimmed string is that core.
   */
  lemma TrimPadded(a: string, m: string, b: string, ws: char -> bool)
    requires AllIn(a, ws) && AllIn(b, ws)
    requires m == [] || (!ws(m[0]) && !ws(m[|m| - 1]))
    ensures Trim(a + m + b, ws) == m
  {
    if m == [] {
      TrimStartPadded(a + b, [], ws);
      assert a + m + b == (a + b) + [];
      assert TrimStart(a + m + b, ws) == [];
    } else {
      assert a + m + b == a + (m + b);
      TrimStartPadded(a, m + b, ws);
      TrimEndPadded(m, b, ws);
    }
  }

  /** Trimming twice is trimming once. */
  lemma TrimIdempotent(s: string, ws: char -> bool)
    ensures Trim(Trim(s, ws), ws) == Trim(s, ws)
  {
    var r := Trim(s, ws);
    TrimPadded([], r, [], ws);
    assert [] + r + [] == r;
  }
}
