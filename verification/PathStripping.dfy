/** Stripping a path prefix from a URL that carries both its decoded path and, when the
    client's escaping differs from the canonical one, the raw escaped path. */
module PathStripping {
  import opened Basics
  import opened ResponseBuffers

  type Bytes = seq<Byte>

  const PERCENT: Byte := 37
  const SLASH: Byte := 47
  const TWO: Byte := 50
  const UPPER_F: Byte := 70
  const LOWER_F: Byte := 102

  /** Digits, a to f and A to F. */
  predicate IsHexDigit(b: Byte) { 48 <= b <= 57 || 97 <= b <= 102 || 65 <= b <= 70 }

  function HexValue(b: Byte): nat
    requires IsHexDigit(b)
  {
    if b <= 57 then b - 48 else if b <= 70 then b - 55 else b - 87
  }

  /** Every hexadecimal digit, in either case, has its value. */
  lemma HexValues(n: nat)
    requires n < 16
    ensures IsHexDigit(LOWER_DIGITS[n]) && HexValue(LOWER_DIGITS[n]) == n
    ensures IsHexDigit(UPPER_DIGITS[n]) && HexValue(UPPER_DIGITS[n]) == n
  {
  }

  const LOWER_DIGITS: Bytes := [48, 49, 50, 51, 52, 53, 54, 55, 56, 57, 97, 98, 99, 100, 101, 102]
  const UPPER_DIGITS: Bytes := [48, 49, 50, 51, 52, 53, 54, 55, 56, 57, 65, 66, 67, 68, 69, 70]

  predicate EscapeAt(raw: Bytes, i: nat) {
    i + 2 < |raw| && raw[i] == PERCENT && IsHexDigit(raw[i + 1]) && IsHexDigit(raw[i + 2])
  }

  /** Percent-decoding, as section 2.1 of RFC 3986 defines it; a stray percent sign is an error. */
  function Decode(raw: Bytes): Option<Bytes> {
    if raw == [] then Some([])
    else if raw[0] == PERCENT then
      if EscapeAt(raw, 0) then Prepend(16 * HexValue(raw[1]) + HexValue(raw[2]), Decode(raw[3..])) else None
    else Prepend(raw[0], Decode(raw[1..]))
  }

  function Prepend(b: Byte, rest: Option<Bytes>): Option<Bytes> {
    if rest.None? then None else Some([b] + rest.value)
  }

  /** Where `raw` continues after `n` decoded bytes. */
  function Tail(raw: Bytes, n: nat): Option<Bytes> {
    if n == 0 then Some(raw)
    else if raw == [] then None
    else if raw[0] == PERCENT then (if EscapeAt(raw, 0) then Tail(raw[3..], n - 1) else None)
    else Tail(raw[1..], n - 1)
  }

  method RawTailFromDecodedOffset(raw: Bytes, n: nat) returns (tail: Option<Bytes>)
    ensures tail == Tail(raw, n)
  {
    var i, k := 0, 0;
    while k < n
      invariant 0 <= k <= n && 0 <= i <= |raw| && Tail(raw[i..], n - k) == Tail(raw, n)
    {
      if i >= |raw| {
        return None;
      }
      if raw[i] == PERCENT {
        assert EscapeAt(raw[i..], 0) == EscapeAt(raw, i);
        if i + 2 >= |raw| || !IsHexDigit(raw[i + 1]) || !IsHexDigit(raw[i + 2]) {
          return None;
        }
        assert raw[i..][3..] == raw[i + 3..];
        i := i + 3;
      } else {
        assert raw[i..][1..] == raw[i + 1..];
        i := i + 1;
      }
      k := k + 1;
    }
    tail := Some(raw[i..]);
  }

  predicate IsEncodedSlash(s: Bytes) {
    |s| >= 3 && s[0] == PERCENT && s[1] == TWO && (s[2] == UPPER_F || s[2] == LOWER_F)
  }

  /** The escaped path after the prefix, its boundary slash made literal; empty when the
      raw path cannot be walked or has no slash there. */
  method StrippedRawRemainder(raw: Bytes, n: nat) returns (rest: Bytes)
    ensures rest == Remainder(raw, n)
  {
    var tail := RawTailFromDecodedOffset(raw, n);
    if tail.None? {
      return [];
    }
    if |tail.value| > 0 && tail.value[0] == SLASH {
      return tail.value;
    }
    if IsEncodedSlash(tail.value) {
      return [SLASH] + tail.value[3..];
    }
    return [];
  }

  function Remainder(raw: Bytes, n: nat): Bytes {
    var tail := Tail(raw, n);
    if tail.None? then []
    else if |tail.value| > 0 && tail.value[0] == SLASH then tail.value
    else if IsEncodedSlash(tail.value) then [SLASH] + tail.value[3..]
    else []
  }

  class Url {
    var path: Bytes
    var rawPath: Bytes

    constructor (path: Bytes, rawPath: Bytes)
      ensures this.path == path && this.rawPath == rawPath
    {
      this.path, this.rawPath := path, rawPath;
    }

    /** Whatever the client escaped, the stripped URL is rooted, and its raw path is
        absent or still decodes to its path and continues byte for byte after the
        boundary slash of the original. */
    method StripPathPrefix(prefix: Bytes)
      modifies this
      ensures path == StrippedPath(old(path), prefix)
      ensures old(path) == prefix ==> path == [SLASH]
      ensures Under(old(path), prefix) ==> prefix + path == old(path) && path[0] == SLASH
      ensures old(path) != prefix && !Under(old(path), prefix) ==> path == old(path)
      ensures !Under(old(path), prefix) ==> rawPath == if old(path) == prefix then [] else old(rawPath)
      ensures Under(old(path), prefix) && old(rawPath) == [] ==> rawPath == []
      ensures Under(old(path), prefix) && old(rawPath) != [] ==>
                rawPath == var r := Remainder(old(rawPath), |prefix|); if r == path then [] else r
      ensures Under(old(path), prefix) && old(rawPath) != [] && Decode(old(rawPath)) == Some(old(path)) ==>
                Keeps(old(rawPath), prefix, path, rawPath)
    {
      if path == prefix {
        path, rawPath := [SLASH], [];
        return;
      }
      if !Under(path, prefix) {
        return;
      }
      if rawPath != [] && Decode(rawPath) == Some(path) {
        RemainderKeeps(rawPath, path, prefix);
      }
      path := path[|prefix|..];
      if rawPath != [] {
        var rest := StrippedRawRemainder(rawPath, |prefix|);
        rawPath := if rest == path then [] else rest;
      }
    }
  }

  /** The path continues below the prefix. */
  predicate Under(path: Bytes, prefix: Bytes) {
    |prefix| < |path| && path[..|prefix|] == prefix && path[|prefix|] == SLASH
  }

  function StrippedPath(path: Bytes, prefix: Bytes): Bytes {
    if path == prefix then [SLASH] else if Under(path, prefix) then path[|prefix|..] else path
  }

  /** `raw` is an encoding of the prefix, a slash in some spelling, and `rest`. */
  ghost predicate Splits(raw: Bytes, prefix: Bytes, slash: Bytes, rest: Bytes) {
    && |slash| + |rest| <= |raw| && raw == raw[..|raw| - |slash| - |rest|] + slash + rest
    && Decode(raw[..|raw| - |slash| - |rest|]) == Some(prefix)
    && (slash == [SLASH] || (|slash| == 3 && IsEncodedSlash(slash)))
  }

  /** The stripped raw path says the same as the stripped path, starts with a literal
      slash and keeps every byte after the boundary; it is left out only when it would
      repeat the path. */
  ghost predicate Keeps(raw: Bytes, prefix: Bytes, path: Bytes, after: Bytes) {
    exists slash, rest ::
      && Splits(raw, prefix, slash, rest)
      && Decode([SLASH] + rest) == Some(path)
      && after == if [SLASH] + rest == path then [] else [SLASH] + rest
  }

  // ---------- Walking an encoding ----------

  function Width(raw: Bytes): nat
    requires raw != []
  {
    if raw[0] == PERCENT then 3 else 1
  }

  /** An encoding and its fronts begin with the same decoded byte. */
  lemma FrontDecodes(raw: Bytes, k: nat)
    requires raw != [] && Decode(raw).Some? && Width(raw) <= k <= |raw|
    ensures Decode(raw).value != []
    ensures Decode(raw[..k]) == Prepend(Decode(raw).value[0], Decode(raw[..k][Width(raw)..]))
  {
  }

  /** After `n` decoded bytes the rest of the encoding encodes the rest of the bytes. */
  lemma {:induction false} TailSplits(raw: Bytes, path: Bytes, n: nat) returns (k: nat)
    requires Decode(raw) == Some(path) && n <= |path|
    ensures k <= |raw| && Tail(raw, n) == Some(raw[k..])
    ensures Decode(raw[..k]) == Some(path[..n]) && Decode(raw[k..]) == Some(path[n..])
  {
    if n == 0 {
      k := 0;
    } else {
      var w := Width(raw);
      var j := TailSplits(raw[w..], path[1..], n - 1);
      k := w + j;
      FrontDecodes(raw, k);
      assert raw[..k][w..] == raw[w..][..j];
      assert raw[w..][j..] == raw[k..];
      assert path[..n] == [path[0]] + path[1..][..n - 1];
      assert path[1..][n - 1..] == path[n..];
    }
  }

  /** A decoded slash was written as a slash or as its escape. */
  lemma SlashSpelling(tail: Bytes, path: Bytes)
    requires Decode(tail) == Some(path) && path != [] && path[0] == SLASH
    ensures tail != [] && (tail[0] == SLASH || IsEncodedSlash(tail))
    ensures tail[0] == SLASH ==> Decode(tail[1..]) == Some(path[1..])
    ensures tail[0] != SLASH ==> Decode(tail[3..]) == Some(path[1..])
  {
    if tail[0] == PERCENT {
      assert 16 * HexValue(tail[1]) + HexValue(tail[2]) == SLASH;
      assert HexValue(tail[1]) == 2 && HexValue(tail[2]) == 15;
    }
  }

  lemma RemainderKeeps(raw: Bytes, path: Bytes, prefix: Bytes)
    requires Decode(raw) == Some(path) && Under(path, prefix)
    ensures var r, p := Remainder(raw, |prefix|), path[|prefix|..];
            Keeps(raw, prefix, p, if r == p then [] else r)
  {
    var n := |prefix|;
    var k := TailSplits(raw, path, n);
    var tail := raw[k..];
    SlashSpelling(tail, path[n..]);
    var w := if tail[0] == SLASH then 1 else 3;
    var rest := tail[w..];
    TailIsSplit(raw, prefix, k, w);
    assert Remainder(raw, n) == [SLASH] + rest by {
      assert w == 1 ==> tail == [SLASH] + rest;
    }
    assert Decode([SLASH] + rest) == Some(path[n..]) by {
      assert path[n..] == [SLASH] + path[n..][1..];
      assert ([SLASH] + rest)[1..] == rest;
    }
  }

  lemma TailIsSplit(raw: Bytes, prefix: Bytes, k: nat, w: nat)
    requires k + w <= |raw| && Decode(raw[..k]) == Some(prefix)
    requires (w == 1 && raw[k..][0] == SLASH) || (w == 3 && IsEncodedSlash(raw[k..]))
    ensures Splits(raw, prefix, raw[k..][..w], raw[k..][w..])
  {
    var slash, rest := raw[k..][..w], raw[k..][w..];
    assert raw == raw[..k] + slash + rest && k == |raw| - |slash| - |rest|;
  }
}
