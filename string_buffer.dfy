/**
 * `StringBuffer` of core/string_buffer.h, with the default short-buffer size
 * of 64: characters go into a fixed short array until a reservation of 64 or
 * more moves them to a heap `String`, whose size is kept a power of two.
 *
 * A `String`'s size counts its terminator, so a heap buffer of size 0 or 1
 * holds no characters and counts as empty; while it is empty the short array
 * is the current buffer. Characters are `char`s; the C `char` and the wide
 * `CharType` of the source are not told apart.
 */
module StringBuffer {
  import opened Wrappers

  const SHORT_BUFFER_SIZE: nat := 64
  const NUL: char := '\0'

  /** `next_power_of_2` for a positive size: the least power of two that is at least `x`. */
  function NextPowerOf2(x: nat): (r: nat)
    requires x > 0
    ensures x <= r && IsPowerOf2(r)
    ensures r == 1 || r / 2 < x
  {
    PowerAtLeast(x, 1)
  }

  predicate IsPowerOf2(r: nat)
    decreases r
  {
    r == 1 || (r > 1 && r % 2 == 0 && IsPowerOf2(r / 2))
  }

  function PowerAtLeast(x: nat, p: nat): (r: nat)
    requires p > 0 && IsPowerOf2(p) && (p == 1 || p / 2 < x)
    ensures x <= r && IsPowerOf2(r) && (r == 1 || r / 2 < x)
    decreases x - p
  {
    if p >= x then p else PowerAtLeast(x, 2 * p)
  }

  /** `String::resize`: the kept prefix, then new unset characters. */
  function Resize(s: seq<char>, n: nat): (r: seq<char>)
    ensures |r| == n
    ensures forall k :: 0 <= k < n && k < |s| ==> r[k] == s[k]
  {
    if n <= |s| then s[..n] else s + seq(n - |s|, _ => NUL)
  }

  /** The index of the first NUL, or the length when there is none (`strlen` on a terminated string). */
  function FirstNulOrEnd(s: seq<char>): (n: nat)
    ensures n <= |s|
    ensures n < |s| ==> s[n] == NUL
    ensures forall k :: 0 <= k < n ==> s[k] != NUL
  {
    if s == [] || s[0] == NUL then 0 else 1 + FirstNulOrEnd(s[1..])
  }

  /** What a C string reads as: the characters before the first NUL. */
  function BeforeNul(s: seq<char>): (r: seq<char>)
    ensures NUL !in r
  {
    s[..FirstNulOrEnd(s)]
  }

  /** The count `append(const CharType *, int)` copies: up to the clip length when it is not negative, and never past a NUL. */
  function ClipLength(s: seq<char>, clip: int): (n: nat)
    ensures n <= FirstNulOrEnd(s)
    ensures clip >= 0 ==> n <= clip
  {
    if 0 <= clip < FirstNulOrEnd(s) then clip else FirstNulOrEnd(s)
  }

  class StringBuffer {
    /** `short_buffer`. */
    var shortBuffer: array<char>
    /** `buffer`, the heap `String` with its terminator slot. */
    var buffer: seq<char>
    /** `string_length`. */
    var length: nat

    /** `String::empty` on the heap buffer. */
    function Empty(): bool
      reads this
    {
      |buffer| <= 1
    }

    /** `current_buffer_ptr`: the heap buffer once it holds anything, the short array before. */
    ghost function Current(): seq<char>
      reads this, shortBuffer
    {
      if Empty() then shortBuffer[..] else buffer
    }

    /** The characters appended so far. */
    ghost function Contents(): seq<char>
      reads this, shortBuffer
      requires Valid()
    {
      Current()[..length]
    }

    /** The current buffer always has room for the characters and a terminator after them. */
    ghost predicate Valid()
      reads this, shortBuffer
    {
      shortBuffer.Length == SHORT_BUFFER_SIZE && length + 1 <= |Current()|
    }

    constructor ()
      ensures Valid() && fresh(shortBuffer) && Contents() == [] && buffer == []
    {
      shortBuffer := new char[SHORT_BUFFER_SIZE](_ => NUL);
      buffer := [];
      length := 0;
    }

    /** `length`. */
    function Length(): (n: nat)
      reads this, shortBuffer
      requires Valid()
      ensures n == |Contents()|
    {
      length
    }

    /** Writes one character into the current buffer. */
    method Put(i: nat, c: char)
      requires Valid() && i < |Current()|
      modifies shortBuffer, this`buffer
      ensures Valid() && length == old(length) && Empty() == old(Empty())
      ensures Current() == old(Current())[i := c]
    {
      if Empty() {
        shortBuffer[i] := c;
      } else {
        buffer := buffer[i := c];
      }
    }

    /**
     * `reserve`, as corrected: nothing happens while the current buffer has
     * room for `size` characters; otherwise the heap buffer grows to the next
     * power of two, and the first move off the short array copies the
     * characters across. Afterwards the current buffer holds at least `size`
     * characters and the contents are unchanged.
     */
    method Reserve(size: int)
      requires Valid()
      modifies this`buffer
      ensures Valid() && length == old(length) && Contents() == old(Contents())
      ensures size <= |Current()|
      ensures (old(Empty()) && size < SHORT_BUFFER_SIZE) || (!old(Empty()) && size < |old(buffer)|) ==> buffer == old(buffer)
      ensures !((old(Empty()) && size < SHORT_BUFFER_SIZE) || (!old(Empty()) && size < |old(buffer)|)) ==>
        size > 0 && |buffer| == NextPowerOf2(size)
    {
      if (Empty() && size < SHORT_BUFFER_SIZE) || (!Empty() && size < |buffer|) {
        return;
      }
      var needCopy := length > 0 && Empty();
      ghost var before := Contents();
      buffer := Resize(buffer, NextPowerOf2(size));
      if needCopy {
        var k := 0;
        while k < length
          invariant 0 <= k <= length < |buffer| == NextPowerOf2(size)
          invariant forall j :: 0 <= j < k ==> buffer[j] == before[j]
        {
          buffer := buffer[k := shortBuffer[k]];
          k := k + 1;
        }
      }
      assert Contents() == before;
    }

    /** `append(CharType)`: one more character, placed last. */
    method AppendChar(c: char)
      requires Valid()
      modifies shortBuffer, this`buffer, this`length
      ensures Valid() && Contents() == old(Contents()) + [c]
    {
      Reserve(length + 2);
      PushBack(c);
    }

    /**
     * The copy into the current buffer after the last character: the loop of
     * `append(const char *)` and the `memcpy` of `append(const CharType *, int)`.
     */
    method CopyIn(src: seq<char>)
      requires Valid() && length + |src| + 1 <= |Current()|
      modifies shortBuffer, this`buffer, this`length
      ensures Valid() && Contents() == old(Contents()) + src
    {
      ghost var before := Contents();
      var k := 0;
      while k < |src|
        invariant 0 <= k <= |src|
        invariant Valid() && length + |src| - k + 1 <= |Current()|
        invariant Contents() == before + src[..k]
      {
        PushBack(src[k]);
        assert src[..k + 1] == src[..k] + [src[k]];
        k := k + 1;
      }
      assert src[..k] == src;
    }

    /** Writes a character after the last one, where the current buffer has room for it and a terminator. */
    method PushBack(c: char)
      requires Valid() && length + 2 <= |Current()|
      modifies shortBuffer, this`buffer, this`length
      ensures Valid() && length == old(length) + 1 && |Current()| == old(|Current()|)
      ensures Contents() == old(Contents()) + [c]
    {
      ghost var before := Contents();
      Put(length, c);
      length := length + 1;
      assert Contents() == before + [c];
    }

    /** `append(const char *)`: every character before the terminator, in order. */
    method AppendCStr(s: seq<char>)
      requires Valid() && NUL in s
      modifies shortBuffer, this`buffer, this`length
      ensures Valid() && Contents() == old(Contents()) + BeforeNul(s)
    {
      var len := FirstNulOrEnd(s);
      Reserve(length + len + 1);
      CopyIn(s[..len]);
    }

    /** `append(const String &)`, which appends the string's characters up to its terminator. */
    method AppendString(s: seq<char>)
      requires Valid()
      modifies shortBuffer, this`buffer, this`length
      ensures Valid() && Contents() == old(Contents()) + BeforeNul(s)
    {
      AppendClipped(s + [NUL], -1);
      assert BeforeNul(s + [NUL]) == BeforeNul(s) by { NulAfter(s); }
    }

    /**
     * `append(const CharType *, int)`: the characters before the terminator,
     * at most `clip` of them when `clip` is not negative.
     */
    method AppendClipped(s: seq<char>, clip: int)
      requires Valid()
      requires NUL in s || 0 <= clip <= |s|
      modifies shortBuffer, this`buffer, this`length
      ensures Valid() && Contents() == old(Contents()) + s[..ClipLength(s, clip)]
    {
      var len := 0;
      while (clip < 0 || len < clip) && s[len] != NUL
        invariant 0 <= len <= ClipLength(s, clip)
        invariant len < |s| || (0 <= clip && len == clip)
        decreases |s| - len
      {
        len := len + 1;
      }
      Reserve(length + len + 1);
      CopyIn(s[..len]);
    }

    /**
     * `as_string`: the terminator is written after the characters; from the
     * short array the result stops at the first NUL, from the heap it is
     * every character, and the heap buffer is cut down to the characters and
     * the terminator.
     */
    method AsString() returns (s: string)
      requires Valid()
      modifies shortBuffer, this`buffer
      ensures Valid() && length == old(length) && Contents() == old(Contents())
      ensures old(Empty()) ==> s == BeforeNul(old(Contents()))
      ensures !old(Empty()) ==> s == old(Contents())
    {
      ghost var before := Contents();
      Put(length, NUL);
      if Empty() {
        s := BeforeNul(shortBuffer[..]);
        assert shortBuffer[..] == before + [NUL] + shortBuffer[length + 1..];
        NulInside(before, shortBuffer[length + 1..]);
      } else {
        buffer := Resize(buffer, length + 1);
        s := buffer[..length];
        assert Contents() == before;
      }
    }
  }

  /** A NUL after a string ends what is read of it. */
  lemma NulAfter(s: seq<char>)
    ensures BeforeNul(s + [NUL]) == BeforeNul(s)
  {
    var n := FirstNulOrEnd(s);
    assert FirstNulOrEnd(s + [NUL]) == n by { NulAt(s + [NUL], n); }
  }

  /** The first NUL of `s + [NUL] + t` is the first NUL of `s` or the added one. */
  lemma NulInside(s: seq<char>, t: seq<char>)
    ensures BeforeNul(s + [NUL] + t) == BeforeNul(s)
  {
    var n := FirstNulOrEnd(s);
    assert FirstNulOrEnd(s + [NUL] + t) == n by { NulAt(s + [NUL] + t, n); }
  }

  /** `FirstNulOrEnd` is the position of a NUL with none before it. */
  lemma {:induction false} NulAt(s: seq<char>, n: nat)
    requires n < |s| && s[n] == NUL
    requires forall k :: 0 <= k < n ==> s[k] != NUL
    ensures FirstNulOrEnd(s) == n
    decreases n
  {
    if n > 0 {
      NulAt(s[1..], n - 1);
    }
  }

  // ---- The reservation as written ----

  /** The sizes that decide where a write lands: the character count and the heap buffer's size. */
  datatype Shape = Shape(length: nat, heapSize: nat)

  /** The room in the current buffer. */
  function Capacity(st: Shape): nat
  {
    if st.heapSize <= 1 then SHORT_BUFFER_SIZE else st.heapSize
  }

  /** `reserve` as written: it returns at once for any size below 64, whatever buffer is current. */
  function ReserveAsWritten(st: Shape, size: int): Shape
  {
    if size < SHORT_BUFFER_SIZE || size < st.heapSize then st
    else st.(heapSize := NextPowerOf2(size))
  }

  /** `as_string`: the heap buffer, when current, is cut to the characters and the terminator. */
  function AsStringShape(st: Shape): Shape
  {
    if st.heapSize <= 1 then st else st.(heapSize := st.length + 1)
  }

  /** `append(CharType)` with the reservation as written; `None` when the character is written past the buffer. */
  function AppendCharAsWritten(st: Shape): (r: Option<Shape>)
    ensures r.Some? <==> st.length < Capacity(ReserveAsWritten(st, st.length + 2))
  {
    var reserved := ReserveAsWritten(st, st.length + 2);
    if st.length < Capacity(reserved) then Some(reserved.(length := st.length + 1)) else None
  }

  /**
   * One character appended, 64 reserved, `as_string` taken, and then two more
   * characters appended: the second of these is written past the heap
   * buffer, which `as_string` cut to two slots.
   */
  lemma AppendOverrunsAfterAsString()
    ensures AppendCharAsWritten(Shape(0, 0)) == Some(Shape(1, 0))
    ensures ReserveAsWritten(Shape(1, 0), 64) == Shape(1, 64)
    ensures AsStringShape(Shape(1, 64)) == Shape(1, 2)
    ensures AppendCharAsWritten(Shape(1, 2)) == Some(Shape(2, 2))
    ensures AppendCharAsWritten(Shape(2, 2)) == None
  {
    assert NextPowerOf2(64) == 64 by {
      assert PowerAtLeast(64, 64) == 64;
      assert PowerAtLeast(64, 32) == 64;
      assert PowerAtLeast(64, 16) == 64;
      assert PowerAtLeast(64, 8) == 64;
      assert PowerAtLeast(64, 4) == 64;
      assert PowerAtLeast(64, 2) == 64;
    }
  }

  /** The corrected reservation keeps room for the requested size in every shape. */
  function ReserveCorrected(st: Shape, size: int): (r: Shape)
    ensures size <= Capacity(r)
    ensures r.length == st.length && Capacity(st) <= Capacity(r)
  {
    if (st.heapSize <= 1 && size < SHORT_BUFFER_SIZE) || (st.heapSize > 1 && size < st.heapSize) then st
    else st.(heapSize := NextPowerOf2(size))
  }
}
