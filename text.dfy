/** Byte strings and the parts of Go's `strings` package that the store relies on
    (`TrimSpace`, `Fields`, `Join` with a single space). Go strings are byte
    sequences and `len` counts bytes, so text is modelled as `seq<byte>`.
    Only ASCII white space is recognised (see README, "Left out"). */
module Text {
  import opened Seqs

  newtype byte = b: int | 0 <= b < 256

  type Bytes = seq<byte>

  const Space: byte := 32

  /** The single-byte runes for which Go's `unicode.IsSpace` holds:
      tab, line feed, vertical tab, form feed, carriage return and space. */
  predicate IsSpace(b: byte) {
    b == 9 || b == 10 || b == 11 || b == 12 || b == 13 || b == 32
  }

  predicate AllSpace(s: Bytes) {
    forall k :: 0 <= k < |s| ==> IsSpace(s[k])
  }

  predicate NoSpace(s: Bytes) {
    forall k :: 0 <= k < |s| ==> !IsSpace(s[k])
  }

  /** The bytes of an ASCII string literal. */
  function Ascii(s: string): (r: Bytes)
    requires forall i :: 0 <= i < |s| ==> s[i] as int < 128
    ensures |r| == |s| && forall i :: 0 <= i < |s| ==> r[i] as int == s[i] as int
  {
    seq(|s|, i requires 0 <= i < |s| => s[i] as int as byte)
  }

  /** Drops the leading white space of `s`. */
  function TrimLeft(s: Bytes): (r: Bytes)
    ensures |r| <= |s| && r == s[|s| - |r|..]
    ensures AllSpace(s[..|s| - |r|])
    ensures r != [] ==> !IsSpace(r[0])
    decreases |s|
  {
    if s != [] && IsSpace(s[0]) then TrimLeft(s[1..]) else s
  }

  /** Drops the trailing white space of `s`. */
  function TrimRight(s: Bytes): (r: Bytes)
    ensures |r| <= |s| && r == s[..|r|]
    ensures AllSpace(s[|r|..])
    ensures r != [] ==> !IsSpace(r[|r| - 1])
    decreases |s|
  {
    if s != [] && IsSpace(s[|s| - 1]) then
      var r := TrimRight(s[..|s| - 1]);
      assert s[|r|..] == s[..|s| - 1][|r|..] + [s[|s| - 1]];
      r
    else s
  }

  /** `strings.TrimSpace`: leading and trailing white space removed; that
      the result is the slice of `s` between them is `TrimSpaceSlice`. */
  function TrimSpace(s: Bytes): (r: Bytes)
    ensures |r| <= |s|
    ensures r != [] ==> !IsSpace(r[0]) && !IsSpace(r[|r| - 1])
    ensures r == [] <==> AllSpace(s)
  {
    var t := TrimLeft(s);
    var r := TrimRight(t);
    assert r == [] <==> AllSpace(s) by {
      BlankIffAllSpace(s, t, r);
    }
    assert r != [] ==> !IsSpace(r[0]) by {
      if r != [] {
        assert r[0] == t[0];
      }
    }
    r
  }

  /** Trimming leaves nothing exactly when there is only white space. */
  lemma BlankIffAllSpace(s: Bytes, t: Bytes, r: Bytes)
    requires |t| <= |s| && t == s[|s| - |t|..] && AllSpace(s[..|s| - |t|])
    requires t != [] ==> !IsSpace(t[0])
    requires |r| <= |t| && r == t[..|r|] && AllSpace(t[|r|..])
    ensures r == [] <==> AllSpace(s)
  {
    if r == [] {
      assert t[|r|..] == t;
      assert s == s[..|s| - |t|] + t;
    } else {
      assert s[|s| - |t|] == t[0] == r[0];
    }
  }

  /** The trimmed text is a slice of `s` with only white space on either side. */
  lemma TrimSpaceSlice(s: Bytes)
    ensures var r := TrimSpace(s);
            exists i :: 0 <= i <= |s| - |r| && r == s[i..i + |r|] && AllSpace(s[..i]) && AllSpace(s[i + |r|..])
  {
    SpaceAround(s, TrimLeft(s), TrimSpace(s));
  }

  /** A prefix `r` of a suffix `t` of `s`, with white space cut off on either
      side, is a slice of `s` with only white space on either side. */
  lemma SpaceAround(s: Bytes, t: Bytes, r: Bytes)
    requires |t| <= |s| && t == s[|s| - |t|..] && AllSpace(s[..|s| - |t|])
    requires |r| <= |t| && r == t[..|r|] && AllSpace(t[|r|..])
    ensures exists i :: 0 <= i <= |s| - |r| && r == s[i..i + |r|] && AllSpace(s[..i]) && AllSpace(s[i + |r|..])
  {
    var i := |s| - |t|;
    SliceOfSuffix(s, i, |r|);
    assert r == s[i..i + |r|] && AllSpace(s[..i]) && AllSpace(s[i + |r|..]);
  }

  /** The longest prefix of `s` that holds no white space. */
  function Word(s: Bytes): (w: Bytes)
    ensures |w| <= |s| && w == s[..|w|] && NoSpace(w)
    ensures |w| < |s| ==> IsSpace(s[|w|])
    decreases |s|
  {
    if s == [] || IsSpace(s[0]) then [] else [s[0]] + Word(s[1..])
  }

  /** `strings.Fields`: the maximal runs of non-space bytes of `s`, in order. */
  function Fields(s: Bytes): (r: seq<Bytes>)
    ensures forall i :: 0 <= i < |r| ==> r[i] != [] && NoSpace(r[i])
    decreases |s|
  {
    var t := TrimLeft(s);
    if t == [] then []
    else
      var w := Word(t);
      assert w != [] by { assert !IsSpace(t[0]); }
      var rest := Fields(t[|w|..]);
      assert forall i :: 0 < i <= |rest| ==> ([w] + rest)[i] == rest[i - 1];
      [w] + rest
  }

  /** `strings.Join(terms, " ")`: the first term, then for every later term a
      space and that term, so the result starts with the first term and ends
      with the last. */
  function Join(terms: seq<Bytes>): (r: Bytes)
    ensures terms == [] ==> r == []
    ensures terms != [] ==> |terms[0]| <= |r| && r[..|terms[0]|] == terms[0]
    ensures |terms| > 1 ==> |terms[0]| < |r| && r[|terms[0]|] == Space
    ensures terms != [] ==>
              var last := terms[|terms| - 1];
              |last| <= |r| && r[|r| - |last|..] == last
    decreases |terms|
  {
    if terms == [] then []
    else if |terms| == 1 then terms[0]
    else terms[0] + [Space] + Join(terms[1..])
  }

  lemma {:induction false} TrimLeftIdempotent(s: Bytes)
    ensures TrimLeft(TrimLeft(s)) == TrimLeft(s)
  {
  }

  /** A string and its left-trimmed form split into the same fields. */
  lemma {:induction false} FieldsTrimLeft(s: Bytes)
    ensures Fields(TrimLeft(s)) == Fields(s)
  {
    TrimLeftIdempotent(s);
  }

  /** Trailing white space never changes the fields. */
  lemma {:induction false} FieldsAppendSpace(x: Bytes, sp: Bytes)
    requires AllSpace(sp)
    ensures Fields(x + sp) == Fields(x)
    decreases |x|
  {
    var t := TrimLeft(x);
    if t == [] {
      BlankAppendSpace(x, sp);
    } else {
      var w := Word(t);
      FieldsAppendStep(x, sp);
      if w != t {
        FieldsAppendSpace(t[|w|..], sp);
      }
    }
  }

  /** A blank string stays blank when white space is appended. */
  lemma BlankAppendSpace(x: Bytes, sp: Bytes)
    requires TrimLeft(x) == [] && AllSpace(sp)
    ensures Fields(x + sp) == [] && Fields(x) == []
  {
    assert x[..|x|] == x;
    AllSpaceConcat(x, sp);
    AllSpaceTrims(x + sp);
  }

  /** The first field of `x` is also the first field of `x + sp`, and what
      follows it gains `sp`. */
  lemma FieldsAppendStep(x: Bytes, sp: Bytes)
    requires AllSpace(sp) && TrimLeft(x) != []
    ensures var t := TrimLeft(x); var w := Word(t);
            && Fields(x) == [w] + Fields(t[|w|..])
            && Fields(x + sp) == [w] + Fields(t[|w|..] + sp)
            && (w == t ==> Fields(t[|w|..] + sp) == [] && Fields(t[|w|..]) == [])
  {
    var t := TrimLeft(x);
    var w := Word(t);
    TrimLeftAppend(x, sp);
    FieldsStep(x);
    FieldsStep(x + sp);
    WordAppend(t, sp);
    DropAppend(t, sp, |w|);
    if w == t {
      assert t[|w|..] == [];
      assert t[|w|..] + sp == sp;
      AllSpaceTrims(sp);
    }
  }

  /** One step of `Fields`: the first field, then the fields of what follows it. */
  lemma FieldsStep(s: Bytes)
    requires TrimLeft(s) != []
    ensures Fields(s) == [Word(TrimLeft(s))] + Fields(TrimLeft(s)[|Word(TrimLeft(s))|..])
  {
  }

  lemma AllSpaceConcat(a: Bytes, b: Bytes)
    requires AllSpace(a) && AllSpace(b)
    ensures AllSpace(a + b)
  {
  }

  lemma {:induction false} AllSpaceTrims(s: Bytes)
    requires AllSpace(s)
    ensures TrimLeft(s) == [] && Fields(s) == []
    decreases |s|
  {
    if s != [] {
      AllSpaceTrims(s[1..]);
    }
  }

  lemma {:induction false} TrimLeftAppend(x: Bytes, y: Bytes)
    requires TrimLeft(x) != []
    ensures TrimLeft(x + y) == TrimLeft(x) + y
    decreases |x|
  {
    if x != [] && IsSpace(x[0]) {
      assert (x + y)[1..] == x[1..] + y;
      TrimLeftAppend(x[1..], y);
    }
  }

  lemma {:induction false} WordAppend(t: Bytes, sp: Bytes)
    requires AllSpace(sp)
    ensures Word(t) == t ==> Word(t + sp) == t
    ensures Word(t) != t ==> Word(t + sp) == Word(t)
    decreases |t|
  {
    if t == [] {
      assert t + sp == sp;
    } else if IsSpace(t[0]) {
    } else {
      assert (t + sp)[1..] == t[1..] + sp;
      WordAppend(t[1..], sp);
    }
  }

  /** The fast path of `Search` is taken exactly when the query has no terms. */
  lemma BlankIffNoFields(s: Bytes)
    ensures TrimSpace(s) == [] <==> Fields(s) == []
  {
  }

  /** `strings.Fields(strings.TrimSpace(s))` is the same as `strings.Fields(s)`. */
  lemma {:induction false} FieldsOfTrimSpace(s: Bytes)
    ensures Fields(TrimSpace(s)) == Fields(s)
  {
    FieldsTrimRight(TrimLeft(s));
    FieldsTrimLeft(s);
  }

  lemma {:induction false} FieldsTrimRight(t: Bytes)
    ensures Fields(TrimRight(t)) == Fields(t)
  {
    var core := TrimRight(t);
    var tail := t[|core|..];
    assert t == core + tail;
    FieldsAppendSpace(core, tail);
  }

  /** Joining non-empty, space-free words with single spaces and splitting the
      result again gives back the words. */
  lemma {:induction false} FieldsOfJoin(terms: seq<Bytes>)
    requires forall i :: 0 <= i < |terms| ==> terms[i] != [] && NoSpace(terms[i])
    ensures Fields(Join(terms)) == terms
    decreases |terms|
  {
    if terms == [] {
    } else if |terms| == 1 {
      FieldsOfWord(terms[0]);
    } else {
      var rest := terms[1..];
      assert Fields(Join(rest)) == rest by {
        FieldsOfJoin(rest);
      }
      assert Fields(Join(terms)) == [terms[0]] + Fields(Join(rest)) by {
        JoinCons(terms);
        FieldsWordThenRun(terms[0], [Space], Join(rest));
      }
      ConsTail(terms);
    }
  }

  lemma JoinCons(terms: seq<Bytes>)
    requires |terms| >= 2
    ensures Join(terms) == terms[0] + ([Space] + Join(terms[1..]))
  {
  }

  /** A single non-empty, space-free word is its own only field. */
  lemma FieldsOfWord(w: Bytes)
    requires w != [] && NoSpace(w)
    ensures Fields(w) == [w]
  {
    NoSpaceWord(w, []);
    assert w + [] == w;
    assert TrimLeft(w) == w;
    FieldsStep(w);
    assert w[|w|..] == [];
  }

  /** A word followed by a run of white space is the first field, and the
      fields after it are those of what follows the run: with `FieldsTrimLeft`
      and `FieldsOfWord` this fixes `Fields` on every input. */
  lemma FieldsWordThenRun(w: Bytes, sp: Bytes, rest: Bytes)
    requires w != [] && NoSpace(w)
    requires sp != [] && AllSpace(sp)
    ensures Fields(w + (sp + rest)) == [w] + Fields(rest)
  {
    var j := w + (sp + rest);
    assert j[0] == w[0];
    assert TrimLeft(j) == j;
    assert (sp + rest)[0] == sp[0];
    NoSpaceWord(w, sp + rest);
    FieldsStep(j);
    DropAppend(w, sp + rest, |w|);
    assert w[|w|..] == [];
    assert j[|w|..] == sp + rest;
    TrimLeftSpaceRun(sp, rest);
  }

  /** Leading white space is skipped whatever follows it. */
  lemma {:induction false} TrimLeftSpaceRun(sp: Bytes, rest: Bytes)
    requires AllSpace(sp)
    ensures TrimLeft(sp + rest) == TrimLeft(rest)
    ensures Fields(sp + rest) == Fields(rest)
    decreases |sp|
  {
    if sp == [] {
      assert sp + rest == rest;
    } else {
      assert (sp + rest)[1..] == sp[1..] + rest;
      TrimLeftSpaceRun(sp[1..], rest);
    }
  }

  lemma {:induction false} NoSpaceWord(w: Bytes, rest: Bytes)
    requires NoSpace(w)
    requires rest == [] || IsSpace(rest[0])
    ensures Word(w + rest) == w
    decreases |w|
  {
    if w == [] {
      assert w + rest == rest;
    } else {
      assert (w + rest)[1..] == w[1..] + rest;
      NoSpaceWord(w[1..], rest);
    }
  }

  /** The query phrase `strings.Join(terms, " ")` splits back into the query's terms. */
  lemma FieldsOfJoinedFields(s: Bytes)
    ensures Fields(Join(Fields(s))) == Fields(s)
  {
    FieldsOfJoin(Fields(s));
  }
}
