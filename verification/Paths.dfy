/** Splitting and joining text, and the normal form of paths inside a pack. */
module Paths {
  import opened Bytes

  const SLASH: byte := 47
  const DOT: bytes := [46]
  const DOTDOT: bytes := [46, 46]

  /** The position of the first c at or after i, or the length of s. */
  function Find(s: bytes, c: byte, i: nat): (j: nat)
    requires i <= |s|
    ensures i <= j <= |s| && (forall x | i <= x < j :: s[x] != c) && (j < |s| ==> s[j] == c)
    decreases |s| - i
  {
    if i == |s| || s[i] == c then i else Find(s, c, i + 1)
  }

  /** The pieces of s between occurrences of c; one more than there are occurrences. */
  function Split(s: bytes, c: byte): (r: seq<bytes>)
    ensures |r| >= 1
    ensures forall p | p in r :: c !in p
    decreases |s|
  {
    var j := Find(s, c, 0);
    if j == |s| then
      [s]
    else
      [s[..j]] + Split(s[j + 1..], c)
  }

  function Join(segs: seq<bytes>, c: byte): bytes {
    if segs == [] then []
    else if |segs| == 1 then segs[0]
    else segs[0] + [c] + Join(segs[1..], c)
  }

  lemma FindUnique(s: bytes, c: byte, i: nat, j: nat)
    requires i <= j <= |s| && (forall x | i <= x < j :: s[x] != c) && (j < |s| ==> s[j] == c)
    ensures Find(s, c, i) == j
  {
    hide Find;
    var k := Find(s, c, i);
    assert !(k < j) && !(j < k);
  }

  lemma SplitNone(s: bytes, c: byte)
    requires c !in s
    ensures Split(s, c) == [s]
  {
    assert s[0..|s|] == s;
    FindUnique(s, c, 0, |s|);
  }

  lemma SplitHead(a: bytes, c: byte, b: bytes)
    requires c !in a
    ensures Split(a + [c] + b, c) == [a] + Split(b, c)
  {
    var s := a + [c] + b;
    assert s[0..|a|] == a && s[..|a|] == a && s[|a| + 1..] == b;
    FindUnique(s, c, 0, |a|);
  }

  lemma {:induction false} SplitConcat(a: bytes, c: byte, b: bytes)
    ensures Split(a + [c] + b, c) == Split(a, c) + Split(b, c)
    decreases |a|
  {
    hide Split, Find;
    var j := Find(a, c, 0);
    if j == |a| {
      SplitNone(a, c);
      SplitHead(a, c, b);
    } else {
      var h, t := a[..j], a[j + 1..];
      assert a == h + [c] + t;
      assert a + [c] + b == h + [c] + (t + [c] + b);
      SplitHead(h, c, t + [c] + b);
      SplitHead(h, c, t);
      SplitConcat(t, c, b);
      assert [h] + (Split(t, c) + Split(b, c)) == [h] + Split(t, c) + Split(b, c);
    }
  }

  lemma {:induction false} SplitJoin(segs: seq<bytes>, c: byte)
    requires segs != [] && forall p | p in segs :: c !in p
    ensures Split(Join(segs, c), c) == segs
  {
    if |segs| == 1 {
      SplitNone(segs[0], c);
    } else {
      SplitHead(segs[0], c, Join(segs[1..], c));
      SplitJoin(segs[1..], c);
    }
  }

  lemma {:induction false} JoinConcat(a: seq<bytes>, b: seq<bytes>, c: byte)
    requires a != [] && b != []
    ensures Join(a + b, c) == Join(a, c) + [c] + Join(b, c)
  {
    if |a| == 1 {
      assert (a + b)[1..] == b;
    } else {
      assert (a + b)[1..] == a[1..] + b;
      JoinConcat(a[1..], b, c);
    }
  }

  // ---- path normal form ----

  predicate Dropped(seg: bytes) { seg == [] || seg == DOT }

  /** What a stored path is made of: no empty, "." or ".." segments and no separators. */
  predicate Legal(seg: bytes) {
    seg != [] && seg != DOT && seg != DOTDOT && SLASH !in seg
  }

  function Keep(segs: seq<bytes>): (r: seq<bytes>)
    ensures forall p | p in r :: p in segs && !Dropped(p)
  {
    if segs == [] then []
    else if Dropped(segs[0]) then Keep(segs[1..])
    else [segs[0]] + Keep(segs[1..])
  }

  lemma {:induction false} KeepConcat(a: seq<bytes>, b: seq<bytes>)
    ensures Keep(a + b) == Keep(a) + Keep(b)
  {
    if a == [] {
      assert a + b == b;
    } else {
      assert (a + b)[1..] == a[1..] + b;
      KeepConcat(a[1..], b);
    }
  }

  lemma {:induction false} KeepAll(segs: seq<bytes>)
    requires forall p | p in segs :: !Dropped(p)
    ensures Keep(segs) == segs
  {
    if segs != [] {
      KeepAll(segs[1..]);
    }
  }

  /** The segments that make up the normal form of a path; none if the path escapes. */
  function Segments(path: bytes): (r: seq<bytes>)
    ensures forall p | p in r :: Legal(p)
  {
    var segs := Split(path, SLASH);
    if DOTDOT in segs then [] else Keep(segs)
  }

  function Normalize(path: bytes): bytes {
    Join(Segments(path), SLASH)
  }

  predicate IsNormal(path: bytes) { path != [] && Normalize(path) == path }

  lemma JoinEmpty(segs: seq<bytes>)
    requires forall p | p in segs :: Legal(p)
    ensures Join(segs, SLASH) == [] <==> segs == []
  {
    if |segs| == 1 {
      assert Legal(segs[0]);
    }
  }

  /** A path has no normal form exactly if it has a ".." segment or nothing but empty and "." ones. */
  lemma NormalizeEmpty(path: bytes)
    ensures Normalize(path) == []
       <==> DOTDOT in Split(path, SLASH) || forall p | p in Split(path, SLASH) :: Dropped(p)
  {
    JoinEmpty(Segments(path));
    if DOTDOT !in Split(path, SLASH) {
      KeepEmpty(Split(path, SLASH));
    }
  }

  lemma {:induction false} KeepEmpty(segs: seq<bytes>)
    ensures Keep(segs) == [] <==> forall p | p in segs :: Dropped(p)
  {
    if segs != [] {
      KeepEmpty(segs[1..]);
      assert forall p :: p in segs <==> p == segs[0] || p in segs[1..];
    }
  }

  /** A non-empty normal form splits back into exactly its legal segments. */
  lemma SegmentsOfNormal(path: bytes)
    requires Normalize(path) != []
    ensures Split(Normalize(path), SLASH) == Segments(path)
    ensures Segments(Normalize(path)) == Segments(path)
    ensures forall p | p in Split(Normalize(path), SLASH) :: Legal(p)
  {
    var segs := Segments(path);
    SplitJoin(segs, SLASH);
    KeepAll(segs);
  }

  lemma NormalizeIdempotent(path: bytes)
    ensures Normalize(Normalize(path)) == Normalize(path)
    ensures Normalize(path) != [] ==> IsNormal(Normalize(path))
  {
    if Normalize(path) != [] {
      SegmentsOfNormal(path);
    } else {
      assert Split([], SLASH) == [[]] by { SplitNone([], SLASH); }
      assert Keep([[]]) == [];
    }
  }

  /** Normalizing is a homomorphism from concatenation with "/" on paths that have a normal form. */
  lemma NormalizeConcat(a: bytes, b: bytes)
    requires Normalize(a) != [] && Normalize(b) != []
    ensures Normalize(a + [SLASH] + b) == Normalize(a) + [SLASH] + Normalize(b)
  {
    SplitConcat(a, SLASH, b);
    KeepConcat(Split(a, SLASH), Split(b, SLASH));
    JoinConcat(Segments(a), Segments(b), SLASH);
  }

  /** A path without separators is its own normal form, unless it is empty, "." or "..". */
  lemma NormalizePiece(n: bytes)
    requires 47 !in n
    ensures Normalize(n) == if n == [] || n == [46] || n == [46, 46] then [] else n
    ensures Escapes(n) <==> n == [46, 46]
  {
    SplitNone(n, SLASH);
    assert Keep([n]) == if Dropped(n) then [] else [n];
  }

  /** The path has a ".." segment. */
  predicate Escapes(path: bytes) { DOTDOT in Split(path, SLASH) }

  /** At a separator: with NormalizePiece this says what the normal form of any path is. */
  lemma NormalizeSlash(a: bytes, b: bytes)
    ensures Escapes(a + [47] + b) <==> Escapes(a) || Escapes(b)
    ensures Normalize(a + [47] + b) ==
            if Escapes(a) || Escapes(b) then []
            else if Normalize(a) == [] then Normalize(b)
            else if Normalize(b) == [] then Normalize(a)
            else Normalize(a) + [47] + Normalize(b)
  {
    SplitConcat(a, SLASH, b);
    KeepConcat(Split(a, SLASH), Split(b, SLASH));
    JoinEmpty(Segments(a));
    JoinEmpty(Segments(b));
    if !Escapes(a) && !Escapes(b) {
      var ka, kb := Segments(a), Segments(b);
      assert Segments(a + [47] + b) == ka + kb;
      if ka == [] {
        assert ka + kb == kb;
      } else if kb == [] {
        assert ka + kb == ka;
      } else {
        JoinConcat(ka, kb, SLASH);
      }
    }
  }

  /** No path that mentions ".." anywhere between separators gets into a pack. */
  lemma EscapeRejected(a: bytes, b: bytes)
    ensures Normalize(a + [SLASH] + DOTDOT + [SLASH] + b) == []
    ensures Normalize(DOTDOT + [SLASH] + b) == [] && Normalize(a + [SLASH] + DOTDOT) == []
  {
    SplitNone(DOTDOT, SLASH);
    SplitConcat(DOTDOT, SLASH, b);
    SplitConcat(a, SLASH, DOTDOT);
    SplitConcat(a + [SLASH] + DOTDOT, SLASH, b);
  }

  // ---- the loop of normalize_path ----

  /** The pieces from position i on: none when i is past the end. */
  function SplitFrom(path: bytes, i: nat): seq<bytes> {
    if i >= |path| then [] else Split(path[i..], SLASH)
  }

  /** One turn of the loop takes one piece off. */
  lemma SplitStep(path: bytes, i: nat)
    requires i < |path|
    ensures var j := Find(path, SLASH, i);
            && path[i..j] == SplitFrom(path, i)[0]
            && Keep(SplitFrom(path, i)[1..]) == Keep(SplitFrom(path, j + 1))
            && (DOTDOT in SplitFrom(path, i)[1..] <==> DOTDOT in SplitFrom(path, j + 1))
  {
    var j := Find(path, SLASH, i);
    var rest := path[i..];
    if j == |path| {
      assert path[i..j] == rest;
      SplitNone(rest, SLASH);
    } else {
      assert rest == path[i..j] + [SLASH] + path[j + 1..];
      SplitHead(path[i..j], SLASH, path[j + 1..]);
      assert SplitFrom(path, i)[1..] == Split(path[j + 1..], SLASH);
      if j + 1 == |path| {
        SplitNone([], SLASH);
        assert Split(path[j + 1..], SLASH) == [[]];
        assert Keep([[]]) == [];
      }
    }
  }

  method NormalizePath(path: bytes) returns (out: bytes)
    ensures out == Normalize(path)
  {
    hide Split, Keep, Join, Find, Legal, Escapes, Segments;
    var segs: seq<bytes> := [];
    var i := 0;
    SplitWhole(path);
    while i < |path|
      invariant 0 <= i <= |path| + 1
      invariant DOTDOT in Split(path, SLASH) <==> DOTDOT in SplitFrom(path, i)
      invariant Keep(Split(path, SLASH)) == segs + Keep(SplitFrom(path, i))
    {
      var j := Find(path, SLASH, i);
      var seg := path[i..j];
      SplitStep(path, i);
      KeepStep(SplitFrom(path, i));
      if seg == [] || seg == DOT {
      } else if seg == DOTDOT {
        NormalizeEmpty(path);
        return [];
      } else {
        segs := segs + [seg];
      }
      i := j + 1;
    }
    assert Keep(SplitFrom(path, i)) == [] by { KeepEmpty([]); }
    assert Segments(path) == segs by { SegmentsAre(path, segs); }
    if segs == [] {
      JoinEmpty(segs);
      return [];
    }
    out := JoinLoop(segs);
  }

  lemma SegmentsAre(path: bytes, segs: seq<bytes>)
    requires DOTDOT !in Split(path, SLASH) && Keep(Split(path, SLASH)) == segs
    ensures Segments(path) == segs
  {
  }

  lemma SplitWhole(path: bytes)
    ensures DOTDOT in Split(path, SLASH) <==> DOTDOT in SplitFrom(path, 0)
    ensures Keep(Split(path, SLASH)) == Keep(SplitFrom(path, 0))
  {
    assert path[0..] == path;
    if path == [] {
      SplitNone([], SLASH);
      assert Keep([[]]) == [];
    }
  }

  lemma KeepStep(segs: seq<bytes>)
    requires segs != []
    ensures Keep(segs) == (if Dropped(segs[0]) then [] else [segs[0]]) + Keep(segs[1..])
    ensures forall p :: p in segs <==> p == segs[0] || p in segs[1..]
  {
  }

  method JoinLoop(segs: seq<bytes>) returns (out: bytes)
    ensures out == Join(segs, SLASH)
  {
    out := [];
    var k := 0;
    while k < |segs|
      invariant 0 <= k <= |segs|
      invariant out == Join(segs[..k], SLASH)
    {
      assert segs[..k + 1] == segs[..k] + [segs[k]];
      if k != 0 {
        JoinConcat(segs[..k], [segs[k]], SLASH);
        out := out + [SLASH];
      }
      out := out + segs[k];
      k := k + 1;
    }
    assert segs[..k] == segs;
  }
}
