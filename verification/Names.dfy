/** 8.3 names (fat.c:38-49, 57-81). */
module Names {
  import opened Bytes

  const SPACE: Byte := 0x20
  const DOT: Byte := 0x2E
  const DELETED: Byte := 0xE5

  /** A NUL-terminated argument, without its NUL. */
  type Name = s: seq<Byte> | 0 !in s witness []

  function Upper(c: Byte): Byte { if 0x61 <= c <= 0x7A then c - 32 else c }

  function UpperAll(s: seq<Byte>): (r: seq<Byte>)
    ensures |r| == |s| && forall i | 0 <= i < |s| :: r[i] == Upper(s[i])
  {
    seq(|s|, i requires 0 <= i < |s| => Upper(s[i]))
  }

  lemma UpperAppend(a: seq<Byte>, b: seq<Byte>)
    ensures UpperAll(a + b) == UpperAll(a) + UpperAll(b)
  {
  }

  /** What C code sees of a buffer: everything before the first NUL. */
  function CString(s: seq<Byte>): (r: seq<Byte>) {
    if s == [] || s[0] == 0 then [] else [s[0]] + CString(s[1..])
  }

  lemma {:induction false} CStringOfName(s: seq<Byte>)
    requires 0 !in s
    ensures CString(s) == s
  {
    if s != [] {
      CStringOfName(s[1..]);
    }
  }

  predicate EqNoCase(a: seq<Byte>, b: seq<Byte>) {
    UpperAll(CString(a)) == UpperAll(CString(b))
  }

  function At(s: seq<Byte>, i: nat): Byte { if i < |s| then s[i] else 0 }

  lemma {:induction false} EqNoCaseStep(a: seq<Byte>, b: seq<Byte>)
    ensures At(a, 0) != 0 && At(b, 0) != 0 ==>
      (EqNoCase(a, b) <==> Upper(a[0]) == Upper(b[0]) && EqNoCase(a[1..], b[1..]))
    ensures At(a, 0) == 0 || At(b, 0) == 0 ==> (EqNoCase(a, b) <==> At(a, 0) == At(b, 0) == 0)
  {
    if At(a, 0) != 0 && At(b, 0) != 0 {
      var ra, rb := CString(a[1..]), CString(b[1..]);
      assert CString(a) == [a[0]] + ra && CString(b) == [b[0]] + rb;
      assert UpperAll(CString(a)) == [Upper(a[0])] + UpperAll(ra);
      assert UpperAll(CString(b)) == [Upper(b[0])] + UpperAll(rb);
      assert UpperAll(CString(a))[1..] == UpperAll(ra) && UpperAll(CString(b))[1..] == UpperAll(rb);
    } else {
      assert |UpperAll(CString(a))| == |CString(a)| && |UpperAll(CString(b))| == |CString(b)|;
    }
  }

  /** k_strcmp_nocase is zero exactly on equality up to case. */
  method StrCmpNoCase(a: seq<Byte>, b: seq<Byte>) returns (r: int)
    ensures r == 0 <==> EqNoCase(a, b)
  {
    var i := 0;
    while At(a, i) != 0 && At(b, i) != 0
      invariant i <= |a| && i <= |b|
      invariant EqNoCase(a, b) <==> EqNoCase(a[i..], b[i..])
      decreases |a| - i
    {
      var ca, cb := Upper(a[i]), Upper(b[i]);
      EqNoCaseStep(a[i..], b[i..]);
      if ca != cb {
        return ca as int - cb as int;
      }
      assert a[i..][1..] == a[i + 1..] && b[i..][1..] == b[i + 1..];
      i := i + 1;
    }
    EqNoCaseStep(a[i..], b[i..]);
    r := Upper(At(a, i)) as int - Upper(At(b, i)) as int;
  }

  // ---- raw name to text

  function BeforeSpace(s: seq<Byte>): (r: seq<Byte>)
    ensures |r| <= |s| && r == s[..|r|] && SPACE !in r
    ensures |r| == |s| || s[|r|] == SPACE
  {
    if s == [] || s[0] == SPACE then [] else [s[0]] + BeforeSpace(s[1..])
  }

  lemma {:induction false} BeforeSpaceIs(s: seq<Byte>, n: nat)
    requires n <= |s| && SPACE !in s[..n] && (n == |s| || s[n] == SPACE)
    ensures BeforeSpace(s) == s[..n]
  {
    if n > 0 {
      assert s[0] == s[..n][0];
      assert s[1..][..n - 1] == s[..n][1..];
      BeforeSpaceIs(s[1..], n - 1);
    }
  }

  predicate AllSpaces(s: seq<Byte>) { forall i | 0 <= i < |s| :: s[i] == SPACE }

  type RawName = s: seq<Byte> | |s| == 11 witness Zeros(11)

  function MakeName(raw: RawName): (r: seq<Byte>)
    ensures |r| <= 12
  {
    BeforeSpace(raw[..8]) + if AllSpaces(raw[8..]) then [] else [DOT] + BeforeSpace(raw[8..])
  }

  /** The copying loop of make_name, used for both parts. */
  method CopyBeforeSpace(s: seq<Byte>, out: array<Byte>, at: nat) returns (j: nat)
    requires at + |s| <= out.Length
    modifies out
    ensures j == at + |BeforeSpace(s)|
    ensures out[..j] == old(out[..at]) + BeforeSpace(s)
  {
    var i := 0;
    while i < |s| && s[i] != SPACE
      invariant 0 <= i <= |s| && SPACE !in s[..i]
      invariant out[..at] == old(out[..at]) && out[at..at + i] == s[..i]
    {
      out[at + i] := s[i];
      i := i + 1;
    }
    BeforeSpaceIs(s, i);
    j := at + i;
    assert out[..j] == out[..at] + out[at..at + i];
  }

  method HasExtension(ext: seq<Byte>) returns (has: bool)
    ensures has <==> !AllSpaces(ext)
  {
    has := false;
    var k := 0;
    while k < |ext|
      invariant 0 <= k <= |ext|
      invariant AllSpaces(ext[..k])
    {
      if ext[k] != SPACE {
        return true;
      }
      k := k + 1;
    }
    assert ext[..k] == ext;
  }

  /** make_name, with the output as a 13-byte buffer ending in NUL. */
  method MakeNameInto(raw: RawName, out: array<Byte>)
    requires out.Length == 13
    modifies out
    ensures var n := |MakeName(raw)|; out[..n] == MakeName(raw) && out[n] == 0
  {
    var j := CopyBeforeSpace(raw[..8], out, 0);
    var hasExt := HasExtension(raw[8..]);
    if hasExt {
      out[j] := DOT;
      assert out[..j + 1] == BeforeSpace(raw[..8]) + [DOT];
      j := CopyBeforeSpace(raw[8..], out, j + 1);
    }
    assert out[..j] == MakeName(raw);
    out[j] := 0;
  }

  // ---- text to raw name

  /** The part before the first dot. */
  function Base(name: seq<Byte>): (r: seq<Byte>)
    ensures |r| <= |name| && r == name[..|r|] && DOT !in r
    ensures |r| == |name| || name[|r|] == DOT
  {
    if name == [] || name[0] == DOT then [] else [name[0]] + Base(name[1..])
  }

  lemma {:induction false} BaseIs(s: seq<Byte>, n: nat)
    requires n <= |s| && DOT !in s[..n] && (n == |s| || s[n] == DOT)
    ensures Base(s) == s[..n]
  {
    if n > 0 {
      assert s[0] == s[..n][0];
      assert s[1..][..n - 1] == s[..n][1..];
      BaseIs(s[1..], n - 1);
    }
  }

  /** A prefix without dots is a prefix of the base. */
  lemma {:induction false} BaseAtLeast(s: seq<Byte>, n: nat)
    requires n <= |s| && DOT !in s[..n]
    ensures n <= |Base(s)|
  {
    if n > 0 {
      assert s[0] == s[..n][0];
      assert s[1..][..n - 1] == s[..n][1..];
      BaseAtLeast(s[1..], n - 1);
    }
  }

  function Cut(s: seq<Byte>, n: nat): (r: seq<Byte>)
    ensures |r| == (if |s| <= n then |s| else n) && r == s[..|r|]
  {
    if |s| <= n then s else s[..n]
  }

  function Pad(s: seq<Byte>, n: nat): (r: seq<Byte>)
    requires |s| <= n
    ensures |r| == n && r[..|s|] == s && AllSpaces(r[|s|..])
  {
    s + seq(n - |s|, _ => SPACE)
  }

  /** A base longer than 8 loses the extension too: the scan stops before it sees the dot. */
  function Extension(name: seq<Byte>): seq<Byte> {
    var b := Base(name);
    if |b| > 8 || |b| == |name| then [] else name[|b| + 1..]
  }

  lemma SliceGrows(s: seq<Byte>, x: nat, i: nat)
    requires x <= i < |s|
    ensures UpperAll(s[x..i + 1]) == UpperAll(s[x..i]) + [Upper(s[i])]
  {
  }

  function Split83(name: seq<Byte>): RawName {
    Pad(UpperAll(Cut(Base(name), 8)), 8) + Pad(UpperAll(Cut(Extension(name), 3)), 3)
  }

  method FillSpaces(out: array<Byte>)
    modifies out
    ensures AllSpaces(out[..])
  {
    var i := 0;
    while i < out.Length
      invariant 0 <= i <= out.Length
      invariant AllSpaces(out[..i])
    {
      out[i] := SPACE;
      i := i + 1;
    }
  }

  method SplitBase(name: Name, out: array<Byte>) returns (i: nat)
    requires out.Length == 8 && AllSpaces(out[..])
    modifies out
    ensures out[..] == Pad(UpperAll(Cut(Base(name), 8)), 8)
    ensures i == |Cut(Base(name), 8)|
  {
    i := 0;
    while At(name, i) != 0 && At(name, i) != DOT && i < 8
      invariant 0 <= i <= 8 && i <= |name| && DOT !in name[..i]
      invariant out[..i] == UpperAll(name[..i])
      invariant AllSpaces(out[i..])
      decreases 8 - i
    {
      out[i] := Upper(name[i]);
      SliceGrows(name, 0, i);
      assert name[..i + 1] == name[0..i + 1] && name[..i] == name[0..i];
      i := i + 1;
    }
    BaseAtLeast(name, i);
    if i < 8 {
      assert i < |name| ==> name[i] in name;
      BaseIs(name, i);
    }
    assert Cut(Base(name), 8) == name[..i];
    assert out[..] == Pad(UpperAll(name[..i]), 8);
  }

  method SplitExtension(name: Name, from: nat, out: array<Byte>)
    requires from <= |name| && out.Length == 3 && AllSpaces(out[..])
    modifies out
    ensures out[..] == Pad(UpperAll(Cut(name[from..], 3)), 3)
  {
    var i, j := from, 0;
    while At(name, i) != 0 && j < 3
      invariant 0 <= j <= 3 && i == from + j <= |name|
      invariant out[..j] == UpperAll(name[from..i])
      invariant AllSpaces(out[j..])
      decreases 3 - j
    {
      out[j] := Upper(name[i]);
      SliceGrows(name, from, i);
      i, j := i + 1, j + 1;
    }
    assert i < |name| ==> name[i] in name;
    assert Cut(name[from..], 3) == name[from..i];
    assert out[..] == Pad(UpperAll(name[from..i]), 3);
  }

  /** split_83 on its two output buffers. */
  method SplitInto(name: Name, outName: array<Byte>, outExt: array<Byte>)
    requires outName.Length == 8 && outExt.Length == 3 && outName != outExt
    modifies outName, outExt
    ensures outName[..] + outExt[..] == Split83(name)
  {
    FillSpaces(outName);
    FillSpaces(outExt);
    var i := SplitBase(name, outName);
    ExtensionStarts(name, i);
    if At(name, i) == DOT {
      SplitExtension(name, i + 1, outExt);
    } else {
      assert outExt[..] == Pad([], 3);
    }
  }

  /** The extension is taken exactly when the scan of the base stops at a dot. */
  lemma ExtensionStarts(name: Name, i: nat)
    requires i == |Cut(Base(name), 8)|
    ensures Extension(name) == if At(name, i) == DOT then name[i + 1..] else []
  {
    var b := Base(name);
    if |b| > 8 {
      assert name[8] == b[8] && b[8] in b;
    }
  }

  // ---- round trips

  /** Names that survive being stored: base of at most 8, and an extension of 1
      to 3 after the dot if there is a dot, neither with a space in it. */
  predicate Fits83(name: Name) {
    var b := Base(name);
    && |b| <= 8 && SPACE !in b
    && (|b| < |name| ==> 1 <= |name| - |b| - 1 <= 3 && SPACE !in name[|b| + 1..])
  }

  lemma BeforeSpaceOfPad(s: seq<Byte>, n: nat)
    requires |s| <= n
    ensures BeforeSpace(Pad(s, n)) == BeforeSpace(s)
  {
    var k := |BeforeSpace(s)|;
    assert Pad(s, n)[..k] == s[..k];
    assert k < n ==> Pad(s, n)[k] == if k < |s| then s[k] else Pad(s, n)[|s|..][k - |s|];
    BeforeSpaceIs(Pad(s, n), k);
  }

  lemma WholeBeforeSpace(s: seq<Byte>)
    ensures |BeforeSpace(UpperAll(s))| == |s| <==> SPACE !in s
  {
    var u := UpperAll(s);
    if SPACE !in s {
      assert u[..|s|] == u;
      BeforeSpaceIs(u, |s|);
    } else {
      var i :| 0 <= i < |s| && s[i] == SPACE;
      assert u[i] == SPACE;
    }
  }

  /** make_name of split_83, as a function of the two parts of the name. */
  lemma StoredName(name: Name)
    ensures var b, e := UpperAll(Cut(Base(name), 8)), UpperAll(Cut(Extension(name), 3));
      MakeName(Split83(name)) == BeforeSpace(b) + if AllSpaces(e) then [] else [DOT] + BeforeSpace(e)
  {
    var b, e := UpperAll(Cut(Base(name), 8)), UpperAll(Cut(Extension(name), 3));
    var raw := Split83(name);
    assert raw[..8] == Pad(b, 8) && raw[8..] == Pad(e, 3);
    BeforeSpaceOfPad(b, 8);
    BeforeSpaceOfPad(e, 3);
    assert e == Pad(e, 3)[..|e|];
    assert AllSpaces(Pad(e, 3)) <==> AllSpaces(e);
  }

  lemma StoredWhole(name: Name)
    requires var b, e := Base(name), Extension(name); |b| <= 8 && |e| <= 3 && SPACE !in b && SPACE !in e
    ensures var b, e := UpperAll(Base(name)), UpperAll(Extension(name));
      MakeName(Split83(name)) == b + if e == [] then [] else [DOT] + e
  {
    var b, e := Base(name), Extension(name);
    StoredName(name);
    assert Cut(b, 8) == b && Cut(e, 3) == e;
    WholeBeforeSpace(b);
    WholeBeforeSpace(e);
    if e != [] {
      assert e[0] in e && UpperAll(e)[0] == Upper(e[0]);
    }
  }

  lemma UpperDotted(b: seq<Byte>, t: seq<Byte>)
    ensures UpperAll(b + ([DOT] + t)) == UpperAll(b) + ([DOT] + UpperAll(t))
  {
    UpperAppend(b, [DOT] + t);
    UpperAppend([DOT], t);
  }

  lemma BaseParts(name: seq<Byte>)
    ensures var b := Base(name); name == b + if |b| == |name| then [] else [DOT] + name[|b| + 1..]
  {
  }

  lemma UpperParts(name: seq<Byte>)
    ensures var b := Base(name);
      UpperAll(name) == UpperAll(b) + if |b| == |name| then [] else [DOT] + UpperAll(name[|b| + 1..])
  {
    BaseParts(name);
    if |Base(name)| < |name| {
      UpperDotted(Base(name), name[|Base(name)| + 1..]);
    }
  }

  /** Storing a name and reading it back gives the upper-cased name exactly for
      the names that fit. */
  lemma {:induction false} NameRoundTrip(name: Name)
    ensures MakeName(Split83(name)) == UpperAll(name) <==> Fits83(name)
  {
    var b, e := Base(name), Extension(name);
    if |b| <= 8 && |e| <= 3 && SPACE !in b && SPACE !in e {
      StoredWhole(name);
      UpperParts(name);
      assert |UpperAll(e)| == |e| && |UpperAll(b)| == |b|;
    } else {
      var cb, ce := UpperAll(Cut(b, 8)), UpperAll(Cut(e, 3));
      StoredName(name);
      WholeBeforeSpace(Cut(b, 8));
      WholeBeforeSpace(Cut(e, 3));
      assert |BeforeSpace(cb)| <= |Cut(b, 8)| && |BeforeSpace(ce)| <= |Cut(e, 3)|;
      assert |MakeName(Split83(name))| != |name|;
    }
  }

  lemma StoredBytes(name: Name)
    ensures var m := MakeName(Split83(name)); UpperAll(m) == m && 0 !in m
  {
    var b, e := Cut(Base(name), 8), Cut(Extension(name), 3);
    StoredName(name);
    PartsHaveNoNul(name);
    UpperKept(b);
    UpperKept(e);
    hide Split83, MakeName, Cut, Base, Extension, UpperAll;
    var p, q := BeforeSpace(UpperAll(b)), BeforeSpace(UpperAll(e));
    UpperDotted(p, q);
    assert p + [] == p;
  }

  lemma PartsHaveNoNul(name: Name)
    ensures 0 !in Cut(Base(name), 8) && 0 !in Cut(Extension(name), 3)
  {
    var b, e := Cut(Base(name), 8), Cut(Extension(name), 3);
    assert forall i | 0 <= i < |b| :: b[i] == name[i];
    assert forall i | 0 <= i < |e| :: e[i] == name[|Base(name)| + 1 + i];
  }

  lemma UpperKept(s: seq<Byte>)
    requires 0 !in s
    ensures var p := BeforeSpace(UpperAll(s)); UpperAll(p) == p && 0 !in p
  {
    var p := BeforeSpace(UpperAll(s));
    assert forall i | 0 <= i < |p| :: p[i] == UpperAll(s)[i] && s[i] in s;
  }

  /** A name is found under itself after it was stored exactly if it fits. */
  lemma StoredMatches(name: Name)
    ensures EqNoCase(MakeName(Split83(name)), name) <==> Fits83(name)
  {
    var m := MakeName(Split83(name));
    StoredBytes(name);
    CStringOfName(m);
    CStringOfName(name);
    NameRoundTrip(name);
  }

  /** Padded upper-case raw names come back byte for byte. */
  lemma {:induction false} RawRoundTrip(base: seq<Byte>, ext: seq<Byte>)
    requires |base| <= 8 && |ext| <= 3 && DOT !in base && SPACE !in base && SPACE !in ext
    requires UpperAll(base) == base && UpperAll(ext) == ext
    ensures Split83(MakeName(Pad(base, 8) + Pad(ext, 3))) == Pad(base, 8) + Pad(ext, 3)
  {
    var raw: RawName := Pad(base, 8) + Pad(ext, 3);
    assert raw[..8] == Pad(base, 8) && raw[8..] == Pad(ext, 3);
    BeforeSpaceOfPad(base, 8);
    BeforeSpaceOfPad(ext, 3);
    BeforeSpaceIs(base, |base|);
    BeforeSpaceIs(ext, |ext|);
    var n := MakeName(raw);
    if ext != [] {
      assert raw[8..][0] == ext[0] && ext[0] in ext;
    }
    assert n == base + if ext == [] then [] else [DOT] + ext;
    assert n[..|base|] == base;
    BaseIs(n, |base|);
    assert Extension(n) == ext;
    assert Cut(ext, 3) == ext;
  }

  /** split_83 never produces an end marker or a dot entry. */
  lemma SplitFirst(name: Name)
    ensures Split83(name)[0] == if name == [] || name[0] == DOT then SPACE else Upper(name[0])
    ensures Split83(name)[0] != 0 && Split83(name)[0] != DOT
  {
    var rb := UpperAll(Cut(Base(name), 8));
    if name == [] || name[0] == DOT {
      assert rb == [];
      assert Pad(rb, 8)[0] == Pad(rb, 8)[|rb|..][0];
    } else {
      assert Base(name)[0] == name[0];
      assert Pad(rb, 8)[..|rb|][0] == rb[0];
      assert name[0] in name;
    }
  }
}
