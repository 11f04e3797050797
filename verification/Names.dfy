/** 8.3 names and the splitting of paths. Strings are byte strings without the terminating zero. */
module Names {
  import opened Bytes
  import opened Directory

  type Text = seq<byte>

  const SLASH: byte := 0x2F

  function ToUpper(c: byte): byte {
    if 0x61 <= c <= 0x7A then c - 32 else c
  }

  predicate IsNameChar(c: byte) {
    0x41 <= c <= 0x5A || 0x61 <= c <= 0x7A || 0x30 <= c <= 0x39 || c == 0x5F || c == 0x2D
  }

  function Upper(s: Text): (r: Text)
    ensures |r| == |s|
  {
    seq(|s|, i requires 0 <= i < |s| => ToUpper(s[i]))
  }

  /** The position of the first dot, or the length. */
  function DotAt(s: Text): (k: nat)
    ensures k <= |s| && (forall i :: 0 <= i < k ==> s[i] != DOT) && (k < |s| ==> s[k] == DOT)
  {
    if s == [] || s[0] == DOT then 0 else 1 + DotAt(s[1..])
  }

  function Base(s: Text): Text { s[..DotAt(s)] }

  function Ext(s: Text): Text { if DotAt(s) < |s| then s[DotAt(s) + 1..] else [] }

  predicate AllNameChars(s: Text) {
    forall i :: 0 <= i < |s| ==> IsNameChar(s[i])
  }

  /** One to eight name characters, optionally a dot and up to three more. */
  predicate Valid83(s: Text) {
    1 <= |Base(s)| <= 8 && |Ext(s)| <= 3 && AllNameChars(Base(s)) && AllNameChars(Ext(s))
  }

  /** The first n characters in upper case, padded with spaces. */
  function Field(s: Text, n: nat): (r: Text)
    ensures |r| == n
  {
    seq(n, i requires 0 <= i < n => if i < |s| then ToUpper(s[i]) else SPACE)
  }

  function To83(s: Text): Name {
    Field(Base(s), 8) + Field(Ext(s), 3)
  }

  function TrimAt(s: Text): (k: nat)
    ensures k <= |s| && (forall i :: 0 <= i < k ==> s[i] != SPACE) && (k < |s| ==> s[k] == SPACE)
  {
    if s == [] || s[0] == SPACE then 0 else 1 + TrimAt(s[1..])
  }

  function From83(n: Name): Text {
    var base, ext := n[..8], n[8..];
    base[..TrimAt(base)] + if ext[0] != SPACE then [DOT] + ext[..TrimAt(ext)] else []
  }

  /** What a name means: case is ignored, and so is a dot with nothing after it. */
  function Canonical(s: Text): Text {
    if s != [] && s[|s| - 1] == DOT then Upper(s[..|s| - 1]) else Upper(s)
  }

  lemma {:induction false} TrimField(s: Text, n: nat)
    requires |s| <= n && AllNameChars(s)
    ensures TrimAt(Field(s, n)) == |s| && Field(s, n)[..|s|] == Upper(s)
  {
    assert forall i :: 0 <= i < |s| ==> IsNameChar(s[i]) && Field(s, n)[i] == ToUpper(s[i]);
    assert |s| < n ==> Field(s, n)[|s|] == SPACE;
  }

  lemma WithoutExtension(s: Text)
    requires Valid83(s) && Ext(s) == []
    ensures Canonical(s) == Upper(Base(s))
  {
    if DotAt(s) < |s| {
      assert s[..|s| - 1] == Base(s);
    } else {
      assert s == Base(s) && IsNameChar(s[|s| - 1]);
    }
  }

  lemma UpperParts(b: Text, x: Text)
    ensures Upper(b + [DOT] + x) == Upper(b) + ([DOT] + Upper(x))
  {
  }

  lemma LastOfExtension(s: Text)
    requires Valid83(s) && Ext(s) != []
    ensures s == Base(s) + [DOT] + Ext(s) && s[|s| - 1] != DOT
  {
    var x := Ext(s);
    assert IsNameChar(x[|x| - 1]) && s[|s| - 1] == x[|x| - 1];
  }

  lemma WithExtension(s: Text)
    requires Valid83(s) && Ext(s) != []
    ensures Canonical(s) == Upper(Base(s)) + ([DOT] + Upper(Ext(s)))
  {
    LastOfExtension(s);
    UpperParts(Base(s), Ext(s));
  }

  /** A valid name is its base, or its base, a dot and its extension. */
  lemma CanonicalParts(s: Text)
    requires Valid83(s)
    ensures Canonical(s) == Upper(Base(s)) + if Ext(s) == [] then [] else [DOT] + Upper(Ext(s))
  {
    if Ext(s) == [] {
      WithoutExtension(s);
    } else {
      WithExtension(s);
    }
  }

  /** name_from_83 undoes name_to_83 up to case and a trailing dot. */
  lemma RoundTrip83(s: Text)
    requires Valid83(s)
    ensures From83(To83(s)) == Canonical(s)
  {
    var b, x := Base(s), Ext(s);
    CanonicalParts(s);
    assert To83(s)[..8] == Field(b, 8) && To83(s)[8..] == Field(x, 3);
    TrimField(b, 8);
    TrimField(x, 3);
    if x != [] {
      assert IsNameChar(x[0]);
    }
  }

  lemma DotAtUnique(s: Text, k: nat)
    requires k <= |s| && (forall i :: 0 <= i < k ==> s[i] != DOT) && (k < |s| ==> s[k] == DOT)
    ensures DotAt(s) == k
  {
  }

  /** The canonical spelling has the same stored name. */
  lemma To83Canonical(s: Text)
    requires Valid83(s)
    ensures To83(Canonical(s)) == To83(s)
  {
    var b, x, c := Base(s), Ext(s), Canonical(s);
    CanonicalParts(s);
    assert forall i :: 0 <= i < |b| ==> IsNameChar(b[i]) && c[i] == ToUpper(b[i]);
    DotAtUnique(c, |b|);
    assert Base(c) == Upper(b) && Ext(c) == Upper(x);
    assert Field(Upper(b), 8) == Field(b, 8) && Field(Upper(x), 3) == Field(x, 3);
  }

  /** Two valid names are the same stored name exactly when they mean the same. */
  lemma To83Injective(a: Text, b: Text)
    requires Valid83(a) && Valid83(b)
    ensures To83(a) == To83(b) <==> Canonical(a) == Canonical(b)
  {
    RoundTrip83(a);
    RoundTrip83(b);
    To83Canonical(a);
    To83Canonical(b);
  }

  // ---- the same without upper case ----

  /** The characters a name may have. */
  lemma NameChars(c: byte)
    ensures
      var ch := c as char;
      IsNameChar(c) <==> 'A' <= ch <= 'Z' || 'a' <= ch <= 'z' || '0' <= ch <= '9' || ch == '_' || ch == '-'
  {
  }

  /** The same character, or a letter in its two cases. */
  predicate SameLetter(a: byte, b: byte) {
    a == b || (a == b + 32 && 0x41 <= b <= 0x5A) || (b == a + 32 && 0x41 <= a <= 0x5A)
  }

  predicate Small(c: byte) {
    0x61 <= c <= 0x7A
  }

  /** The capital of a character is the one of its two cases that is not small. */
  lemma CapitalIs(c: byte, d: byte)
    ensures d == ToUpper(c) <==> SameLetter(c, d) && !Small(d)
  {
  }

  lemma SameCapital(a: byte, b: byte)
    ensures SameLetter(a, b) <==> ToUpper(a) == ToUpper(b)
  {
  }

  /** Character by character the same letters. */
  predicate SameLetters(a: Text, b: Text) {
    |a| == |b| && forall i :: 0 <= i < |a| ==> SameLetter(a[i], b[i])
  }

  lemma SameUpper(a: Text, b: Text)
    ensures SameLetters(a, b) <==> Upper(a) == Upper(b)
  {
    if |a| == |b| {
      forall i | 0 <= i < |a| ensures SameLetter(a[i], b[i]) <==> Upper(a)[i] == Upper(b)[i] {
        SameCapital(a[i], b[i]);
      }
    }
  }

  /** A name without the dot it may end in. */
  function Shorn(s: Text): Text {
    if s != [] && s[|s| - 1] == DOT then s[..|s| - 1] else s
  }

  /** Two valid names are stored alike exactly when they have the same letters, in whatever case, up to a dot at the end. */
  lemma StoredAlike(a: Text, b: Text)
    requires Valid83(a) && Valid83(b)
    ensures To83(a) == To83(b) <==> SameLetters(Shorn(a), Shorn(b))
  {
    To83Injective(a, b);
    SameUpper(Shorn(a), Shorn(b));
  }

  /** Place i of a field of a stored name: the letter of the name there, as a capital, or a space behind its end. */
  predicate Filled(field: Text, i: nat, s: Text)
    requires i < |field|
  {
    if i < |s| then SameLetter(s[i], field[i]) && !Small(field[i]) else field[i] == 0x20
  }

  lemma FieldFilled(s: Text, n: nat, i: nat)
    requires i < n
    ensures Filled(Field(s, n), i, s)
  {
    if i < |s| {
      CapitalIs(s[i], ToUpper(s[i]));
    }
  }

  /** How a name of base b and extension x is stored: b in the first eight places, x in the last three. */
  lemma StoredForm(b: Text, x: Text, i: nat)
    requires 1 <= |b| <= 8 && |x| <= 3 && AllNameChars(b) && AllNameChars(x) && i < 11
    ensures
      var s := b + if x == [] then [] else [DOT] + x;
      Valid83(s) && if i < 8 then Filled(To83(s)[..8], i, b) else Filled(To83(s)[8..], i - 8, x)
  {
    var s := b + if x == [] then [] else [DOT] + x;
    assert forall k :: 0 <= k < |b| ==> s[k] == b[k] && IsNameChar(b[k]);
    DotAtUnique(s, |b|);
    assert Base(s) == b && Ext(s) == x;
    assert To83(s)[..8] == Field(b, 8) && To83(s)[8..] == Field(x, 3);
    if i < 8 {
      FieldFilled(b, 8, i);
    } else {
      FieldFilled(x, 3, i - 8);
    }
  }

  /** Every valid name has that form, perhaps with a dot behind it. */
  lemma FormOf(s: Text)
    requires Valid83(s)
    ensures
      var b, x := Base(s), Ext(s);
      1 <= |b| <= 8 && |x| <= 3 && AllNameChars(b) && AllNameChars(x) && Shorn(s) == b + if x == [] then [] else [DOT] + x
  {
    if Ext(s) == [] {
      assert DotAt(s) == |s| ==> IsNameChar(Base(s)[|s| - 1]);
    } else {
      LastOfExtension(s);
    }
  }

  /** A stored user name is never an end marker, a deleted mark or a dot entry. */
  predicate UserName(n: Name) {
    n[0] != 0 && n[0] != DELETED && n[0] != DOT
  }

  lemma To83UserName(s: Text)
    requires Valid83(s)
    ensures UserName(To83(s))
  {
    assert To83(s)[0] == ToUpper(Base(s)[0]) && IsNameChar(Base(s)[0]);
  }

  /** name_is_valid_83. */
  method NameIsValid83(name: Text) returns (ok: bool)
    ensures ok <==> Valid83(name)
  {
    ghost var k := DotAt(name);
    var baseLen, extLen, seenDot := 0, 0, false;
    if |name| == 0 || name[0] == DOT {
      return false;
    }
    var i := 0;
    while i < |name|
      invariant 0 <= i <= |name|
      invariant seenDot <==> k < i
      invariant baseLen == Min(i, k) && extLen == if seenDot then i - k - 1 else 0
      invariant baseLen <= 8 && extLen <= 3
      invariant forall x :: 0 <= x < i && x != k ==> IsNameChar(name[x])
    {
      var c := name[i];
      if c == DOT {
        if seenDot {
          assert c == Ext(name)[i - k - 1];
          return false;
        }
        seenDot := true;
        i := i + 1;
        continue;
      }
      if !IsNameChar(c) {
        assert if i < k then c == Base(name)[i] else c == Ext(name)[i - k - 1];
        return false;
      }
      if seenDot {
        extLen := extLen + 1;
        if extLen > 3 {
          return false;
        }
      } else {
        baseLen := baseLen + 1;
        if baseLen > 8 {
          return false;
        }
      }
      i := i + 1;
    }
    return baseLen > 0;
  }

  /** The first loops of name_to_83: spaces, and the base over them. */
  method CopyBase(name: Text) returns (buf: seq<byte>)
    ensures |buf| == 11 && buf[..8] == Field(Base(name), 8) && forall x :: 8 <= x < 11 ==> buf[x] == SPACE
  {
    ghost var k := DotAt(name);
    buf := [SPACE, SPACE, SPACE, SPACE, SPACE, SPACE, SPACE, SPACE, SPACE, SPACE, SPACE];
    var o := 0;
    while o < |name| && name[o] != DOT && o < 8
      invariant 0 <= o <= 8 && o <= k && |buf| == 11
      invariant forall x :: 0 <= x < 11 ==> buf[x] == if x < o then ToUpper(name[x]) else SPACE
    {
      buf := buf[o := ToUpper(name[o])];
      o := o + 1;
    }
  }

  /** name_to_83. */
  method NameTo83(name: Text) returns (out: Name)
    ensures out == To83(name)
  {
    var buf := CopyBase(name);
    var dot := 0;
    while dot < |name| && name[dot] != DOT
      invariant 0 <= dot <= DotAt(name)
    {
      dot := dot + 1;
    }
    ghost var ext := Ext(name);
    if dot < |name| {
      var i := 0;
      while dot + 1 + i < |name| && i < 3
        invariant 0 <= i <= 3 && dot + 1 + i <= |name| && |buf| == 11
        invariant buf[..8] == Field(Base(name), 8)
        invariant forall x :: 8 <= x < 11 ==> buf[x] == if x < 8 + i then ToUpper(ext[x - 8]) else SPACE
      {
        buf := buf[8 + i := ToUpper(name[dot + 1 + i])];
        i := i + 1;
      }
    }
    assert buf[8..] == Field(ext, 3) && buf == buf[..8] + buf[8..];
    out := buf;
  }

  // ---- path components ----

  function SkipSlashes(path: Text, pos: nat): (a: nat)
    requires pos <= |path|
    ensures pos <= a <= |path| && (a < |path| ==> path[a] != SLASH)
    decreases |path| - pos
  {
    if pos < |path| && path[pos] == SLASH then SkipSlashes(path, pos + 1) else pos
  }

  function ComponentEnd(path: Text, pos: nat): (b: nat)
    requires pos <= |path|
    ensures pos <= b <= |path| && (pos < |path| && path[pos] != SLASH ==> pos < b)
    decreases |path| - pos
  {
    if pos < |path| && path[pos] != SLASH then ComponentEnd(path, pos + 1) else pos
  }

  /** The maximal runs of non-slash characters from `pos` on. */
  function Components(path: Text, pos: nat): seq<Text>
    requires pos <= |path|
    decreases |path| - pos
  {
    var a := SkipSlashes(path, pos);
    if a == |path| then [] else [path[a..ComponentEnd(path, a)]] + Components(path, ComponentEnd(path, a))
  }

  const FAT_NAME_BUF := 13

  /** path_next_component: 1 with the component, 0 at the end, -1 when it does not fit the buffer. */
  method PathNextComponent(path: Text, pos: nat) returns (got: int, next: nat, out: Text)
    requires pos <= |path|
    ensures got == 0 || got == 1 || got == -1
    ensures next <= |path|
    ensures got == 0 <==> Components(path, pos) == []
    ensures got == -1 ==> |Components(path, pos)[0]| >= FAT_NAME_BUF
    ensures got == 1 ==> Components(path, pos) == [out] + Components(path, next) && next > pos
  {
    next, out := pos, [];
    while next < |path| && path[next] == SLASH
      invariant pos <= next <= |path| && SkipSlashes(path, next) == SkipSlashes(path, pos)
    {
      next := next + 1;
    }
    if next == |path| {
      return 0, next, out;
    }
    ghost var a, b := next, ComponentEnd(path, next);
    while next < |path| && path[next] != SLASH
      invariant a <= next <= b && ComponentEnd(path, next) == b && out == path[a..next] && |out| <= FAT_NAME_BUF - 1
    {
      if |out| >= FAT_NAME_BUF - 1 {
        return -1, next, out;
      }
      out := out + [path[next]];
      next := next + 1;
    }
    got := 1;
  }

  // ---- components and slashes ----

  predicate NoSlash(s: Text) {
    forall i :: 0 <= i < |s| ==> s[i] != SLASH
  }

  predicate OnlySlashes(s: Text) {
    forall i :: 0 <= i < |s| ==> s[i] == SLASH
  }

  lemma {:induction false} NoComponents(path: Text, pos: nat)
    requires pos <= |path|
    ensures Components(path, pos) == [] <==> OnlySlashes(path[pos..])
    decreases |path| - pos
  {
    if pos < |path| {
      assert path[pos..][0] == path[pos] && path[pos..] == [path[pos]] + path[pos + 1..];
      if path[pos] == SLASH {
        NoComponents(path, pos + 1);
      }
    }
  }

  /** A path without slashes is its own only component. */
  lemma {:induction false} EndOfName(n: Text, pos: nat)
    requires NoSlash(n) && pos <= |n|
    ensures ComponentEnd(n, pos) == |n|
    decreases |n| - pos
  {
    if pos < |n| {
      EndOfName(n, pos + 1);
    }
  }

  lemma OneComponent(n: Text)
    requires NoSlash(n) && n != []
    ensures Components(n, 0) == [n]
  {
    EndOfName(n, 0);
    assert Components(n, |n|) == [];
    assert n[0..|n|] == n;
  }

  lemma {:induction false} SkipBefore(p: Text, more: Text, pos: nat)
    requires pos <= |p| && more != [] && more[0] == SLASH
    ensures SkipSlashes(p, pos) < |p| ==> SkipSlashes(p + more, pos) == SkipSlashes(p, pos)
    ensures SkipSlashes(p, pos) == |p| ==> SkipSlashes(p + more, pos) == SkipSlashes(p + more, |p|)
    decreases |p| - pos
  {
    if pos < |p| && p[pos] == SLASH {
      SkipBefore(p, more, pos + 1);
    }
  }

  lemma {:induction false} EndBefore(p: Text, more: Text, pos: nat)
    requires pos <= |p| && more != [] && more[0] == SLASH
    ensures ComponentEnd(p + more, pos) == ComponentEnd(p, pos)
    decreases |p| - pos
  {
    if pos < |p| && p[pos] != SLASH {
      EndBefore(p, more, pos + 1);
    }
  }

  /** What follows a slash adds its components to those before. */
  lemma {:induction false} ComponentsBefore(p: Text, more: Text, pos: nat)
    requires pos <= |p| && more != [] && more[0] == SLASH
    ensures Components(p + more, pos) == Components(p, pos) + Components(p + more, |p|)
    decreases |p| - pos
  {
    SkipBefore(p, more, pos);
    var a := SkipSlashes(p, pos);
    if a < |p| {
      EndBefore(p, more, a);
      var b := ComponentEnd(p, a);
      assert (p + more)[a..b] == p[a..b];
      ComponentsBefore(p, more, b);
    } else {
      assert SkipSlashes(p + more, |p|) == SkipSlashes(p + more, pos);
    }
  }

  lemma {:induction false} EndAfter(p: Text, n: Text, pos: nat)
    requires NoSlash(n) && pos <= |n|
    ensures ComponentEnd(p + n, |p| + pos) == |p| + |n|
    decreases |n| - pos
  {
    if pos < |n| {
      EndAfter(p, n, pos + 1);
    }
  }

  /** A name behind a slash is one more component. */
  lemma ComponentsChild(p: Text, n: Text)
    requires NoSlash(n) && n != []
    ensures Components(p + [SLASH] + n, 0) == Components(p, 0) + [n]
  {
    var q := p + ([SLASH] + n);
    assert q == p + [SLASH] + n;
    ComponentsBefore(p, [SLASH] + n, 0);
    assert q[|p|] == SLASH && q[|p| + 1] == n[0];
    assert SkipSlashes(q, |p|) == |p| + 1;
    EndAfter(p + [SLASH], n, 0);
    assert ComponentEnd(q, |p| + 1) == |q|;
    assert q[|p| + 1..|q|] == n && Components(q, |q|) == [];
  }

  /** A slash at the end adds none. */
  lemma ComponentsSlash(p: Text)
    ensures Components(p + [SLASH], 0) == Components(p, 0)
  {
    ComponentsBefore(p, [SLASH], 0);
    NoComponents(p + [SLASH], |p|);
  }

  /** A component that does not fit the buffer is no valid name either. */
  lemma TooLongInvalid(s: Text)
    requires |s| >= FAT_NAME_BUF
    ensures !Valid83(s)
  {
  }
}
