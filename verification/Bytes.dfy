/** Machine integers and the byte encodings shared by the wire formats. */
module Bytes {
  type u8 = x: int | 0 <= x < 0x100
  type u16 = x: int | 0 <= x < 0x1_0000
  type u32 = x: int | 0 <= x < 0x1_0000_0000
  type u64 = x: int | 0 <= x < 0x1_0000_0000_0000_0000

  type Ipv4 = s: seq<u8> | |s| == 4 witness [0, 0, 0, 0]
  type Ipv6 = s: seq<u8> | |s| == 16 witness [0, 0, 0, 0, 0, 0, 0, 0, 0, 0, 0, 0, 0, 0, 0, 0]

  const U64_RANGE := 0x1_0000_0000_0000_0000

  datatype Option<+T> = None | Some(value: T)

  /** Big-endian bytes of a 16-bit integer. */
  function Be16(x: u16): seq<u8> {
    [x / 0x100, x % 0x100]
  }

  function FromBe16(hi: u8, lo: u8): u16 {
    hi * 0x100 + lo
  }

  /** Big-endian bytes of a 32-bit integer. */
  function Be32(x: u32): seq<u8> {
    Be16(x / 0x1_0000) + Be16(x % 0x1_0000)
  }

  /** Little-endian bytes of a 16-bit integer. */
  function Le16(x: u16): seq<u8> {
    [x % 0x100, x / 0x100]
  }

  /** Little-endian bytes of a 32-bit integer. */
  function Le32(x: u32): seq<u8> {
    Le16(x % 0x1_0000) + Le16(x / 0x1_0000)
  }

  function Concat(parts: seq<seq<u8>>): seq<u8> {
    if parts == [] then [] else parts[0] + Concat(parts[1..])
  }

  /** Keeps the elements that satisfy `keep`, in order. */
  function Filter<T>(s: seq<T>, keep: T -> bool): seq<T> {
    if s == [] then []
    else if keep(s[0]) then [s[0]] + Filter(s[1..], keep)
    else Filter(s[1..], keep)
  }

  lemma {:induction false} FilterConcat<T>(a: seq<T>, b: seq<T>, keep: T -> bool)
    ensures Filter(a + b, keep) == Filter(a, keep) + Filter(b, keep)
  {
    if a == [] {
      assert a + b == b;
    } else {
      var rest, fb := Filter(a[1..], keep), Filter(b, keep);
      assert Filter(a[1..] + b, keep) == rest + fb by {
        FilterConcat(a[1..], b, keep);
      }
      assert (a + b)[1..] == a[1..] + b;
      assert [a[0]] + (rest + fb) == ([a[0]] + rest) + fb;
    }
  }

  lemma {:induction false} FilterMember<T>(s: seq<T>, keep: T -> bool, x: T)
    ensures x in Filter(s, keep) <==> x in s && keep(x)
  {
    if s != [] {
      FilterMember(s[1..], keep, x);
      assert s == [s[0]] + s[1..];
    }
  }
}
