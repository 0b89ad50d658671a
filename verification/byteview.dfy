/** The immutable byte view that the cache stores (geecache/byteview.go). */
module ByteView {

  /** A Go `byte`. */
  newtype byte = x: int | 0 <= x < 256

  /** A Go string is a sequence of bytes; the model writes it as a `string`
      whose characters stand for those bytes one for one. */
  predicate IsByteString(s: string)
  {
    forall i :: 0 <= i < |s| ==> s[i] as int < 256
  }

  /** `[]byte(s)` for a string of bytes. */
  function StringBytes(s: string): (b: seq<byte>)
    requires IsByteString(s)
    ensures |b| == |s|
    ensures forall i :: 0 <= i < |s| ==> b[i] as int == s[i] as int
  {
    seq(|s|, i requires 0 <= i < |s| => s[i] as int as byte)
  }

  /** An immutable view of bytes. */
  datatype Byteview = Byteview(b: seq<byte>)
  {
    /** The view's length, used by the LRU engine to count its bytes. */
    function Len(): (n: nat)
      ensures n == |b|
    {
      |b|
    }

    /** The bytes as a Go string: one character per byte. */
    function String(): (s: string)
      ensures |s| == Len()
      ensures IsByteString(s)
      ensures forall i :: 0 <= i < |s| ==> s[i] as int == b[i] as int
    {
      seq(|b|, i requires 0 <= i < |b| => b[i] as int as char)
    }

    /** A fresh copy of the bytes; the caller may write to it without changing the view. */
    method ByteSlice() returns (c: array<byte>)
      ensures fresh(c)
      ensures c[..] == b
    {
      c := new byte[|b|](i requires 0 <= i < |b| => b[i]);
    }
  }

  /** `cloneBytes`: a fresh buffer of the same length holding the same bytes. */
  method CloneBytes(b: array<byte>) returns (c: array<byte>)
    ensures fresh(c)
    ensures c.Length == b.Length
    ensures c[..] == b[..]
  {
    c := new byte[b.Length];
    var i := 0;
    while i < b.Length
      invariant 0 <= i <= b.Length
      invariant c[..i] == b[..i]
    {
      c[i] := b[i];
      i := i + 1;
    }
  }

  /** Converting a view to a string and back gives the same bytes. */
  lemma StringRoundTrip(v: Byteview)
    ensures StringBytes(v.String()) == v.b
  {
    var s := v.String();
    var back := StringBytes(s);
    assert |back| == |v.b|;
    forall i | 0 <= i < |v.b| ensures back[i] == v.b[i] {
      assert back[i] as int == v.b[i] as int;
    }
  }
}
