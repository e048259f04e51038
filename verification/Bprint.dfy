/** A print buffer that grows up to a limit, counts what it is given, and keeps as much of it as
    fits. */
module Bprint {
  import opened Bytes

  const UINT_MAX: nat := 0xFFFF_FFFF

  function Min(a: int, b: int): int {
    if a < b then a else b
  }

  function Max(a: int, b: int): int {
    if a < b then b else a
  }

  class PrintBuffer {
    var str: array<char>
    var len: nat
    var size: nat
    var sizeMax: nat
    /** Everything that was printed. */
    ghost var printed: string

    /** The length of the text that is kept. */
    function Kept(): int
      reads this
    {
      Min(len, size - 1)
    }

    /** The buffer holds a prefix of everything printed, which is cut short only when the limit is
        reached. */
    ghost predicate HoldsPrefix()
      reads this, str
    {
      && size <= sizeMax <= UINT_MAX && size <= str.Length
      && len == Min(|printed|, UINT_MAX - 5)
      && (len < size || size == sizeMax)
      && (size > 0 ==> str[..Kept()] == printed[..Kept()])
    }

    /** The prefix is terminated. */
    ghost predicate Valid()
      reads this, str
    {
      HoldsPrefix() && (size > 0 ==> str[Kept()] == '\0')
    }

    /** `sizeAuto` is the room inside the structure itself. */
    constructor (sizeInit: nat, sizeMax: nat, sizeAuto: nat)
      requires 0 < sizeAuto <= UINT_MAX && sizeInit <= UINT_MAX && sizeMax <= UINT_MAX
      ensures Valid() && fresh(str) && printed == "" && len == 0
      ensures this.sizeMax == if sizeMax == 1 then sizeAuto else sizeMax
    {
      var max := if sizeMax == 1 then sizeAuto else sizeMax;
      str := new char[sizeAuto](_ => '\0');
      len, size, this.sizeMax, printed := 0, Min(sizeAuto, max), max, "";
      new;
      if sizeInit > size {
        var refused := Alloc(sizeInit - 1);
      }
    }

    /** Makes room for more text; refused when the buffer is at its limit or cut short. */
    method Alloc(room: nat) returns (refused: bool)
      requires HoldsPrefix() && room <= UINT_MAX
      modifies this`str, this`size
      ensures HoldsPrefix()
      ensures refused == (old(size) == sizeMax || len >= old(size))
      ensures refused ==> str == old(str) && size == old(size)
      ensures !refused ==> fresh(str) && size > old(size)
      ensures !refused ==> size == Min(sizeMax, Max(2 * old(size), len + 1 + Min(UINT_MAX - len - 1, room)))
      ensures !refused ==> str[len] == old(str[len])
    {
      if size == sizeMax {
        return true;
      }
      if len >= size {
        return true;
      }
      var minSize := len + 1 + Min(UINT_MAX - len - 1, room);
      var newSize := if size > sizeMax / 2 then sizeMax else size * 2;
      if newSize < minSize {
        newSize := Min(sizeMax, minSize);
      }
      // No unsigned step has overflowed.
      assert minSize <= UINT_MAX && size < newSize <= sizeMax;
      str := Copied(newSize);
      size := newSize;
      refused := false;
    }

    /** `realloc`: the text and its terminator in a longer array. */
    method Copied(newSize: nat) returns (newStr: array<char>)
      requires len < str.Length && len < newSize
      ensures fresh(newStr) && newStr.Length == newSize
      ensures newStr[..len] == str[..len] && newStr[len] == str[len]
    {
      newStr := new char[newSize](_ => '\0');
      for i := 0 to len + 1
        invariant forall k :: 0 <= k < i ==> newStr[k] == str[k]
      {
        newStr[i] := str[i];
      }
    }

    /** What `vsnprintf` does with the room behind the text: as much as fits, and a terminator. */
    method Format(text: string, room: nat)
      requires room > 0 ==> len + room <= str.Length
      modifies str
      ensures forall i :: 0 <= i < len && i < str.Length ==> str[i] == old(str[i])
      ensures room > 0 ==> str[len..len + Min(|text|, room - 1)] == text[..Min(|text|, room - 1)]
      ensures room > 0 ==> str[len + Min(|text|, room - 1)] == '\0'
    {
      if room > 0 {
        var n := Min(|text|, room - 1);
        for i := 0 to n
          invariant forall k :: 0 <= k < len ==> str[k] == old(str[k])
          invariant str[len..len + i] == text[..i]
        {
          str[len + i] := text[i];
        }
        str[len + n] := '\0';
      }
    }

    /** Formats the text behind what is kept; `room` is what there was for it. */
    method TryFormat(text: string) returns (room: nat)
      requires HoldsPrefix()
      modifies str
      ensures HoldsPrefix() && room == size - Min(len, size)
      ensures len < size ==> str[len..len + Min(|text|, room - 1)] == text[..Min(|text|, room - 1)]
      ensures text == "" && old(Valid()) ==> Valid()
    {
      room := size - Min(len, size);
      ghost var kept := if size > 0 then str[..Kept()] else "";
      Format(text, room);
      assert size > 0 ==> str[..Kept()] == kept;
    }

    /** Counts the text that was formatted, and terminates what is kept. */
    method Grow(text: string)
      requires HoldsPrefix() && text != ""
      requires len < size ==> str[len..len + Min(|text|, size - len - 1)] == text[..Min(|text|, size - len - 1)]
      requires len + |text| < size || size == sizeMax
      modifies this`len, this`printed, str
      ensures Valid() && printed == old(printed) + text
    {
      var next := len + Min(|text|, UINT_MAX - 5 - len);
      CappedSum(|printed|, |text|);
      if size > 0 {
        Terminate(text, next);
      }
      printed := printed + text;
      len := next;
    }

    /** The terminator behind the text that is kept once `next` characters are counted. */
    method Terminate(text: string, next: nat)
      requires HoldsPrefix() && size > 0
      requires len < size ==> str[len..len + Min(|text|, size - len - 1)] == text[..Min(|text|, size - len - 1)]
      requires len <= next <= len + |text| && (len == |printed| || next == len)
      modifies str
      ensures str[..Min(next, size - 1)] == (printed + text)[..Min(next, size - 1)]
      ensures str[Min(next, size - 1)] == '\0'
    {
      var k := Min(next, size - 1);
      GrowingKeepsPrefix(str[..], size, len, next, printed, text);
      ghost var kept := str[..][..k];
      str[k] := '\0';
      assert str[..k] == kept;
    }

    /** Prints a text: formats it, and again with more room as long as more can be had. */
    method Print(text: string)
      requires Valid() && |text| <= MAX_INT
      modifies this, str
      ensures Valid() && printed == old(printed) + text && sizeMax == old(sizeMax)
      ensures str == old(str) || fresh(str)
    {
      while true
        invariant HoldsPrefix() && printed == old(printed) && sizeMax == old(sizeMax)
        invariant text == "" ==> Valid()
        invariant str == old(str) || fresh(str)
        decreases sizeMax - size
      {
        var room := TryFormat(text);
        if |text| == 0 {
          assert printed + "" == printed;
          return;
        }
        if |text| < room {
          break;
        }
        var refused := Alloc(|text|);
        if refused {
          break;
        }
      }
      Grow(text);
    }

    predicate IsComplete()
      reads this
    {
      len < size
    }

    /** As long as the count is right, the buffer is complete exactly when the limit allows it, and
        then it has everything that was printed. */
    lemma CompleteIff()
      requires Valid() && |printed| <= UINT_MAX - 5
      ensures IsComplete() <==> |printed| < sizeMax
      ensures IsComplete() ==> str[..len] == printed && str[len] == '\0'
    {
      assert printed[..|printed|] == printed;
    }
  }

  lemma CappedSum(p: nat, t: nat)
    ensures Min(p, UINT_MAX - 5) + Min(t, UINT_MAX - 5 - Min(p, UINT_MAX - 5)) == Min(p + t, UINT_MAX - 5)
  {
  }

  /** Text put behind the part that is kept makes a longer prefix. */
  lemma GrowingKeepsPrefix(s: string, size: nat, len: nat, next: nat, printed: string, text: string)
    requires 0 < size <= |s| && len <= |printed|
    requires len <= next <= len + |text| && (len == |printed| || next == len)
    requires s[..Min(len, size - 1)] == printed[..Min(len, size - 1)]
    requires len < size ==> s[len..len + Min(|text|, size - len - 1)] == text[..Min(|text|, size - len - 1)]
    ensures s[..Min(next, size - 1)] == (printed + text)[..Min(next, size - 1)]
  {
    var all, k := printed + text, Min(next, size - 1);
    forall i | 0 <= i < k ensures s[i] == all[i] {
      if i < len {
        assert s[i] == s[..Min(len, size - 1)][i];
        assert printed[i] == printed[..Min(len, size - 1)][i];
      } else {
        var n := Min(|text|, size - len - 1);
        assert s[i] == s[len..len + n][i - len];
        assert text[i - len] == text[..n][i - len];
      }
    }
  }

}
