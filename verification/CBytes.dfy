/** C-level vocabulary shared by every component: bytes, NUL-terminated strings
    and the 4-byte little-endian `int` the wire format uses. */
module CBytes {

  datatype Option<+T> = None | Some(value: T)

  /** A C `char` read as an unsigned byte. */
  type Byte = c: char | c as int < 256 witness '\0'

  const NUL: Byte := '\0'

  /** What a `char*` that is not NULL points at: the characters before the terminator. */
  type CString = s: seq<Byte> | NUL !in s witness []

  const TWO32 := 0x1_0000_0000

  ghost predicate IsInt32(n: int) {
    -0x8000_0000 <= n < 0x8000_0000
  }

  function ToByte(n: int): Byte {
    (n % 256) as char
  }

  /** `*(int*)p = n` on a little-endian machine. */
  function EncodeInt(n: int): (b: seq<Byte>)
    ensures |b| == 4
  {
    var u := n % TWO32;
    [ToByte(u), ToByte(u / 256), ToByte(u / 65536), ToByte(u / 16777216)]
  }

  /** `*(int*)(buf + at)`. */
  function DecodeInt(buf: seq<Byte>, at: nat): int
    requires at + 4 <= |buf|
  {
    var u := (buf[at] as int) + 256 * (buf[at + 1] as int) + 65536 * (buf[at + 2] as int)
             + 16777216 * (buf[at + 3] as int);
    if u < 0x8000_0000 then u else u - TWO32
  }

  /** The bytes `w` lie at offset `at`. */
  ghost predicate At(buf: seq<char>, at: nat, w: seq<char>) {
    at + |w| <= |buf| && forall k :: 0 <= k < |w| ==> buf[at + k] == w[k]
  }

  lemma AtSplit(buf: seq<char>, at: nat, a: seq<char>, b: seq<char>)
    ensures At(buf, at, a + b) <==> At(buf, at, a) && At(buf, at + |a|, b)
  {
    var w := a + b;
    if At(buf, at, w) {
      assert forall k :: 0 <= k < |a| ==> a[k] == w[k];
      forall k | 0 <= k < |b| ensures buf[at + |a| + k] == b[k] {
        assert b[k] == w[|a| + k];
      }
    }
    if At(buf, at, a) && At(buf, at + |a|, b) {
      forall k | 0 <= k < |w| ensures buf[at + k] == w[k] {
        if k >= |a| {
          assert w[k] == b[k - |a|];
        }
      }
    }
  }

  lemma AtIsSlice(buf: seq<char>, at: nat, w: seq<char>)
    requires at + |w| <= |buf|
    ensures At(buf, at, w) <==> buf[at..at + |w|] == w
  {
    var v := buf[at..at + |w|];
    assert forall k :: 0 <= k < |w| ==> v[k] == buf[at + k];
  }

  /** An `int` written anywhere in a buffer is read back from there. */
  lemma IntRoundTrip(buf: seq<Byte>, at: nat, n: int)
    requires IsInt32(n)
    requires At(buf, at, EncodeInt(n))
    ensures DecodeInt(buf, at) == n
  {
    var u := n % TWO32;
    var b := EncodeInt(n);
    assert buf[at + 0] == b[0] && buf[at + 1] == b[1] && buf[at + 2] == b[2] && buf[at + 3] == b[3];
    Base256(u);
  }

  lemma Base256(u: nat)
    requires u < TWO32
    ensures u == u % 256 + 256 * (u / 256 % 256) + 65536 * (u / 65536 % 256) + 16777216 * (u / 16777216 % 256)
  {
    assert u / 65536 == u / 256 / 256 && u / 16777216 == u / 65536 / 256;
  }

  /** The first index from `at` on holding `c`; the length when there is none. */
  function IndexFrom(s: seq<char>, c: char, at: nat): (k: nat)
    requires at <= |s|
    ensures at <= k <= |s|
    ensures forall j :: at <= j < k ==> s[j] != c
    ensures k < |s| ==> s[k] == c
    decreases |s| - at
  {
    if at == |s| || s[at] == c then at else IndexFrom(s, c, at + 1)
  }

  /** An index with the two defining properties of `IndexFrom` is that index. */
  lemma IndexFromUnique(s: seq<char>, c: char, at: nat, k: nat)
    requires at <= k <= |s|
    requires forall j :: at <= j < k ==> s[j] != c
    requires k < |s| ==> s[k] == c
    ensures IndexFrom(s, c, at) == k
  {
  }

  /** The string a `char*` into `buf` reads as: everything up to the next NUL. */
  function StringAt(buf: seq<char>, at: nat): seq<char>
    requires at <= |buf|
  {
    buf[at..IndexFrom(buf, NUL, at)]
  }
}
