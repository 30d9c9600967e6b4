/**
 * JavaScript strings as the contact form sees them: sequences of UTF-16 code
 * units (what `.length` counts and what a regular expression without the `u`
 * flag matches), the whitespace set shared by `\s` and `String.prototype.trim`,
 * and `trim` itself.
 */
module JsText {

  /** One UTF-16 code unit. */
  newtype CodeUnit = x: int | 0 <= x < 0x1_0000

  /** A JavaScript string value. */
  type JsString = seq<CodeUnit>

  const Space: CodeUnit := 0x20
  const At: CodeUnit := 0x40
  const Dot: CodeUnit := 0x2E

  /**
   * WhiteSpace or LineTerminator of ECMA-262 (sections 12.2 and 12.3): TAB, VT,
   * FF, ZWNBSP, the space separators of Unicode category Zs, LF, CR, LS and PS.
   * Both the regular-expression class `\s` and `String.prototype.trim` are
   * defined by this one set.
   */
  predicate IsWs(c: CodeUnit) {
    || c == 0x09 || c == 0x0B || c == 0x0C || c == 0xFEFF
    || c == 0x20 || c == 0xA0 || c == 0x1680 || 0x2000 <= c <= 0x200A
    || c == 0x202F || c == 0x205F || c == 0x3000
    || c == 0x0A || c == 0x0D || c == 0x2028 || c == 0x2029
  }

  predicate AllWs(s: JsString) {
    forall k | 0 <= k < |s| :: IsWs(s[k])
  }

  predicate NoWs(s: JsString) {
    forall k | 0 <= k < |s| :: !IsWs(s[k])
  }

  /**
   * `r` sits at offset `i` of `s` with only whitespace before and after it.
   */
  ghost predicate SliceAt(r: JsString, s: JsString, i: int) {
    0 <= i && i + |r| <= |s| && s[i..i + |r|] == r && AllWs(s[..i]) && AllWs(s[i + |r|..])
  }

  /**
   * `r` is what trimming `s` must give: a contiguous part of `s` that leaves
   * only whitespace on either side and neither starts nor ends with whitespace.
   */
  ghost predicate IsTrimOf(r: JsString, s: JsString) {
    && (r != [] ==> !IsWs(r[0]) && !IsWs(r[|r| - 1]))
    && exists i :: SliceAt(r, s, i)
  }

  /** Drops leading whitespace. */
  function TrimStart(s: JsString): (r: JsString)
    ensures |r| <= |s| && r == s[|s| - |r|..]
    ensures AllWs(s[..|s| - |r|])
    ensures r != [] ==> !IsWs(r[0])
  {
    if s != [] && IsWs(s[0]) then
      var r := TrimStart(s[1..]);
      assert s[..|s| - |r|] == [s[0]] + s[1..][..|s| - 1 - |r|];
      r
    else
      s
  }

  /** Drops trailing whitespace. */
  function TrimEnd(s: JsString): (r: JsString)
    ensures |r| <= |s| && r == s[..|r|]
    ensures AllWs(s[|r|..])
    ensures r != [] ==> !IsWs(r[|r| - 1])
  {
    if s != [] && IsWs(s[|s| - 1]) then
      var r := TrimEnd(s[..|s| - 1]);
      assert s[|r|..] == s[..|s| - 1][|r|..] + [s[|s| - 1]];
      r
    else
      s
  }

  /** `s.trim()`. */
  function Trim(s: JsString): (r: JsString)
    ensures |r| <= |s|
    ensures IsTrimOf(r, s)
  {
    var e := TrimEnd(s);
    var r := TrimStart(e);
    var i := |e| - |r|;
    assert s[i..i + |r|] == r;
    assert s[..i] == e[..i];
    assert s[i + |r|..] == s[|e|..];
    assert r != [] ==> r[|r| - 1] == e[|e| - 1];
    assert SliceAt(r, s, i);
    r
  }

  /** Every unit before offset `i` and from offset `j` on is whitespace. */
  lemma WsOutside(s: JsString, i: nat, j: nat)
    requires i <= j <= |s| && AllWs(s[..i]) && AllWs(s[j..])
    ensures forall k | 0 <= k < |s| && !(i <= k < j) :: IsWs(s[k])
  {
    forall k | 0 <= k < |s| && !(i <= k < j) ensures IsWs(s[k]) {
      if k < i { assert s[..i][k] == s[k]; } else { assert s[j..][k - j] == s[k]; }
    }
  }

  /** There is only one way to trim a string. */
  lemma {:induction false} TrimUnique(s: JsString, r1: JsString, r2: JsString)
    requires IsTrimOf(r1, s) && IsTrimOf(r2, s)
    ensures r1 == r2
  {
    var i1 :| SliceAt(r1, s, i1);
    var i2 :| SliceAt(r2, s, i2);
    WsOutside(s, i1, i1 + |r1|);
    WsOutside(s, i2, i2 + |r2|);
    // A non-whitespace end of one trim must lie inside the other one.
    assert r1 != [] ==> s[i1] == r1[0] && s[i1 + |r1| - 1] == r1[|r1| - 1];
    assert r2 != [] ==> s[i2] == r2[0] && s[i2 + |r2| - 1] == r2[|r2| - 1];
  }

  /** A string without whitespace is its own trim. */
  lemma TrimNoWs(s: JsString)
    requires NoWs(s)
    ensures Trim(s) == s
  {
    assert s[0..|s|] == s;
    assert SliceAt(s, s, 0);
    TrimUnique(s, Trim(s), s);
  }

  /** Trimming twice is trimming once. */
  lemma TrimIdempotent(s: JsString)
    ensures Trim(Trim(s)) == Trim(s)
  {
    var r := Trim(s);
    assert r[0..|r|] == r;
    assert SliceAt(r, r, 0);
    TrimUnique(r, Trim(r), r);
  }

  lemma AllWsConcat(a: JsString, b: JsString)
    requires AllWs(a) && AllWs(b)
    ensures AllWs(a + b)
  {
    forall k | 0 <= k < |a + b| ensures IsWs((a + b)[k]) {
      if k < |a| { assert (a + b)[k] == a[k]; } else { assert (a + b)[k] == b[k - |a|]; }
    }
  }

  /** Surrounding whitespace keeps a slice a slice between whitespace. */
  lemma SliceAtSurrounded(r: JsString, s: JsString, i: int, p: JsString, q: JsString)
    requires SliceAt(r, s, i) && AllWs(p) && AllWs(q)
    ensures SliceAt(r, p + s + q, |p| + i)
  {
    var t := p + s + q;
    var j := |p| + i;
    assert t[j..j + |r|] == s[i..i + |r|];
    assert t[..j] == p + s[..i];
    AllWsConcat(p, s[..i]);
    assert t[j + |r|..] == s[i + |r|..] + q;
    AllWsConcat(s[i + |r|..], q);
  }

  /** Whitespace around a string never reaches its trim. */
  lemma TrimSurrounding(p: JsString, s: JsString, q: JsString)
    requires AllWs(p) && AllWs(q)
    ensures Trim(p + s + q) == Trim(s)
  {
    var r := Trim(s);
    var i :| SliceAt(r, s, i);
    SliceAtSurrounded(r, s, i, p, q);
    TrimUnique(p + s + q, Trim(p + s + q), r);
  }
}
