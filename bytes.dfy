/** `Device.prototype.nv`: a raw characteristic payload rendered as text
    when it is zero-padded ASCII, otherwise as lower-case hex. */
module Bytes {

  type byte = x: int | 0 <= x < 256

  function HexDigit(d: int): char
    requires 0 <= d < 16
  {
    if d < 10 then (48 + d) as char else (87 + d) as char
  }

  /** The value of a lower-case hex digit, if it is one. */
  function DigitValue(c: char): (d: int)
    ensures -1 <= d < 16
  {
    if '0' <= c <= '9' then c as int - 48
    else if 'a' <= c <= 'f' then c as int - 87
    else -1
  }

  /** `buffer.toString('hex')`: two lower-case digits per byte. */
  function Hex(v: seq<byte>): (s: string)
    ensures |s| == 2 * |v|
  {
    if v == [] then [] else [HexDigit(v[0] / 16), HexDigit(v[0] % 16)] + Hex(v[1..])
  }

  /** `new Buffer(s, 'hex')` on a well-formed hex string. */
  function Unhex(s: string): seq<byte>
    decreases |s|
  {
    if |s| < 2 then []
    else
      var hi, lo := DigitValue(s[0]), DigitValue(s[1]);
      if hi < 0 || lo < 0 then [] else [hi * 16 + lo] + Unhex(s[2..])
  }

  /** Hex encoding loses nothing: decoding it gives the buffer back. */
  lemma {:induction false} UnhexHex(v: seq<byte>)
    ensures Unhex(Hex(v)) == v
  {
    if v != [] {
      var s := Hex(v);
      assert s[2..] == Hex(v[1..]);
      assert DigitValue(s[0]) == v[0] / 16 && DigitValue(s[1]) == v[0] % 16;
      UnhexHex(v[1..]);
    }
  }

  /** The buffer without its trailing zero bytes. */
  function TrimZeros(v: seq<byte>): (t: seq<byte>)
    ensures |t| <= |v| && t == v[..|t|]
    ensures forall i :: |t| <= i < |v| ==> v[i] == 0
    ensures t == [] || t[|t| - 1] != 0
    decreases |v|
  {
    if v != [] && v[|v| - 1] == 0 then TrimZeros(v[..|v| - 1]) else v
  }

  /** UTF-8 and ASCII decodings agree exactly when every byte is below 0x80. */
  predicate IsAscii(t: seq<byte>) {
    forall i :: 0 <= i < |t| ==> t[i] < 128
  }

  function AsText(t: seq<byte>): (s: string)
    ensures |s| == |t|
  {
    seq(|t|, i requires 0 <= i < |t| => t[i] as char)
  }

  /** The bytes of an ASCII text. */
  function Encode(s: string): seq<int> {
    seq(|s|, i requires 0 <= i < |s| => s[i] as int)
  }

  /** What `nv(v)` returns: if trailing zeros were stripped and what is left
      is ASCII, that text; otherwise the hex of the whole buffer. */
  function NvOf(v: seq<byte>): string {
    var t := TrimZeros(v);
    if |t| < |v| && IsAscii(t) then AsText(t) else Hex(v)
  }

  /** `nv(v)`, stripping trailing zeros one byte at a time as the source
      strips `00` from the end of the hex string. */
  method Nv(v: seq<byte>) returns (s: string)
    ensures s == NvOf(v)
  {
    var n := |v|;
    while n > 0 && v[n - 1] == 0
      invariant 0 <= n <= |v|
      invariant TrimZeros(v[..n]) == TrimZeros(v)
    {
      assert v[..n][..n - 1] == v[..n - 1];
      n := n - 1;
    }
    assert v[..|v|] == v;
    var t := v[..n];
    // the UTF-8 and ASCII decodings of `t` agree
    if n < |v| && IsAscii(t) {
      s := AsText(t);
    } else {
      s := Hex(v);
    }
  }

  /** A buffer that does not end in a zero byte is always rendered as hex. */
  lemma NvUnpaddedIsHex(v: seq<byte>)
    requires v == [] || v[|v| - 1] != 0
    ensures NvOf(v) == Hex(v)
  {
  }

  /** When `nv` answers with text, that text followed by the stripped zero
      bytes is the buffer again, and the text is ASCII without a trailing NUL. */
  lemma NvTextRoundTrip(v: seq<byte>)
    requires NvOf(v) != Hex(v)
    ensures var s := NvOf(v);
            |s| < |v| && Encode(s) + seq(|v| - |s|, _ => 0) == v
    ensures forall i :: 0 <= i < |NvOf(v)| ==> NvOf(v)[i] < 128 as char
    ensures NvOf(v) == [] || NvOf(v)[|NvOf(v)| - 1] != 0 as char
  {
    var t := TrimZeros(v);
    assert NvOf(v) == AsText(t);
    EncodeAsText(t);
    Padded(t, v);
  }

  lemma EncodeAsText(t: seq<byte>)
    ensures Encode(AsText(t)) == t
  {
  }

  /** A prefix followed only by zeros, padded back with zeros, is the whole. */
  lemma Padded(t: seq<byte>, v: seq<byte>)
    requires |t| <= |v| && t == v[..|t|]
    requires forall i :: |t| <= i < |v| ==> v[i] == 0
    ensures t + seq(|v| - |t|, _ => 0) == v
  {
    var w := t + seq(|v| - |t|, _ => 0);
    assert forall i :: 0 <= i < |v| ==> w[i] == v[i];
  }

  /** Hex encoding works byte by byte. */
  lemma {:induction false} HexAppend(a: seq<byte>, b: seq<byte>)
    ensures Hex(a + b) == Hex(a) + Hex(b)
    decreases |a|
  {
    if a == [] {
      assert a + b == b;
    } else {
      assert (a + b)[1..] == a[1..] + b;
      HexAppend(a[1..], b);
    }
  }

  /** Zero bytes are written as `00` each. */
  lemma {:induction false} HexZeros(k: nat)
    ensures Hex(seq(k, _ => 0)) == seq(2 * k, _ => '0')
  {
    if k > 0 {
      var z: seq<byte> := seq(k, _ => 0);
      assert z[1..] == seq(k - 1, _ => 0);
      HexZeros(k - 1);
      assert HexDigit(0) == '0';
    }
  }

  /** Stripping `00` from the end of the hex text strips whole zero bytes:
      the hex of a buffer whose tail from `n` on is zeros is the hex of its
      first `n` bytes followed by `00`s, and decoding that shorter text
      gives those `n` bytes. */
  lemma HexStripped(v: seq<byte>, n: nat)
    requires n <= |v|
    requires forall i :: n <= i < |v| ==> v[i] == 0
    ensures Hex(v[..n]) + seq(2 * (|v| - n), _ => '0') == Hex(v)
    ensures Hex(v)[..2 * n] == Hex(v[..n])
    ensures Unhex(Hex(v)[..2 * n]) == v[..n]
  {
    var z: seq<byte> := seq(|v| - n, _ => 0);
    Padded(v[..n], v);
    assert v[..n] + z == v;
    HexAppend(v[..n], z);
    HexZeros(|v| - n);
    UnhexHex(v[..n]);
  }

  /** In `nv`, the text the loop leaves is the hex of the trimmed buffer,
      and the buffer made from it is the trimmed buffer. */
  lemma NvStrippedBuffer(v: seq<byte>)
    ensures var t := TrimZeros(v);
            Hex(t) + seq(2 * (|v| - |t|), _ => '0') == Hex(v) &&
            Unhex(Hex(v)[..2 * |t|]) == t
  {
    HexStripped(v, |TrimZeros(v)|);
  }
}
