/**
 * The fixed-size identifier buffer of sql/char_buffer.h: CharBuffer<buff_sz>
 * keeps up to buff_sz bytes in an array of buff_sz + 1 with a NUL after the
 * stored bytes, filled either by a bounded binary copy or by a charset's
 * case-folding routine.
 */
module CharBuffers {

  /** LEX_CSTRING: a byte pointer with a length, as the bytes it covers. */
  datatype LexCString = LexCString(str: seq<char>)
  {
    function Length(): nat {
      |str|
    }
  }

  /**
   * cset->casedn(cs, src, srclen, dst, dstlen): the lower-cased form of
   * `src`, written into a destination of `dstlen` bytes, so never longer.
   */
  type Casedn = f: (seq<char>, nat) -> seq<char> | forall src, dstlen :: |f(src, dstlen)| <= dstlen
    witness (src: seq<char>, dstlen: nat) => []

  /** CHARSET_INFO, reduced to the case-folding routine the buffer calls. */
  datatype CharsetInfo = CharsetInfo(name: string, casedn: Casedn)

  function Min(a: nat, b: nat): nat {
    if a <= b then a else b
  }

  /**
   * What copy_bin stores: the longest prefix of `str` that fits `buffSz`
   * bytes, which is all of `str` when it fits.
   */
  function BinCopy(buffSz: nat, str: seq<char>): (r: seq<char>)
    ensures |r| <= buffSz && r <= str
    ensures |str| <= buffSz ==> r == str
    ensures |r| < |str| ==> |r| == buffSz
  {
    str[..Min(buffSz, |str|)]
  }

  /** A bounded copy of a bounded copy changes nothing. */
  lemma BinCopyIdempotent(buffSz: nat, str: seq<char>)
    ensures BinCopy(buffSz, BinCopy(buffSz, str)) == BinCopy(buffSz, str)
  {
  }

  /** The bytes of `s` before its first NUL: what strlen measures from str(). */
  function CString(s: seq<char>): (r: seq<char>)
    ensures r <= s
    ensures '\0' !in r
    ensures |r| < |s| ==> s[|r|] == '\0'
  {
    if s == [] || s[0] == '\0' then []
    else [s[0]] + CString(s[1..])
  }

  class CharBuffer {
    /** buff_sz, the template argument. */
    const buffSz: nat
    /** m_buff, of sizeof(m_buff) == buff_sz + 1 bytes. */
    const buff: array<char>
    /** m_length. */
    var length: nat

    /** The stored bytes fit buff_sz and a NUL follows them. */
    ghost predicate Valid()
      reads this, buff
    {
      buff.Length == buffSz + 1 && length <= buffSz && buff[length] == '\0'
    }

    /** CharBuffer(): empty and terminated. */
    constructor (buffSz: nat)
      ensures Valid() && this.buffSz == buffSz && fresh(buff)
      ensures length == 0 && buff[0] == '\0'
    {
      this.buffSz := buffSz;
      buff := new char[buffSz + 1];
      length := 0;
      new;
      buff[0] := '\0';
    }

    /** to_lex_cstring() and the LEX_CSTRING conversion: the stored bytes and m_length. */
    function ToLexCString(): (r: LexCString)
      reads this, buff
      requires Valid()
      ensures r.Length() == Length() <= buffSz
      ensures forall i :: 0 <= i < r.Length() ==> r.str[i] == buff[i]
    {
      LexCString(buff[..length])
    }

    /** length(): m_length, never more than buff_sz. */
    function Length(): (n: nat)
      reads this, buff
      requires Valid()
      ensures n <= buffSz
    {
      length
    }

    /** str(): m_buff as a C string, the stored bytes through their NUL. */
    function Str(): (s: seq<char>)
      reads this, buff
      requires Valid()
      ensures |s| == Length() + 1 && s[Length()] == '\0'
      ensures s[..Length()] == ToLexCString().str
    {
      buff[..length + 1]
    }

    /** Stored bytes without a NUL of their own read back through str() unchanged. */
    lemma {:induction false} StrReadsBack()
      requires Valid() && '\0' !in ToLexCString().str
      ensures CString(Str()) == ToLexCString().str
    {
      CStringStopsAtNul(ToLexCString().str);
    }

    /** copy_bin: the longest prefix of `str` that fits, terminated; later bytes stay as they were. */
    method CopyBin(str: seq<char>)
      requires Valid()
      modifies this, buff
      ensures Valid() && ToLexCString().str == BinCopy(buffSz, str)
      ensures forall i :: length < i < buff.Length ==> buff[i] == old(buff[i])
    {
      var n := Min(buff.Length - 1, |str|);
      forall i | 0 <= i < n {
        buff[i] := str[i];
      }
      buff[n] := '\0';
      length := n;
    }

    /** copy_casedn(cs, str): the case-folded `str` from the charset, terminated. */
    method CopyCasedn(cs: CharsetInfo, str: seq<char>)
      requires Valid()
      modifies this, buff
      ensures Valid() && ToLexCString().str == cs.casedn(str, buffSz)
      ensures forall i :: length < i < buff.Length ==> buff[i] == old(buff[i])
    {
      var folded := cs.casedn(str, buffSz);
      forall i | 0 <= i < |folded| {
        buff[i] := folded[i];
      }
      length := |folded|;
      buff[length] := '\0';
    }

    /** copy_casedn(cs, str, casedn): the case-folding copy when `casedn`, the binary copy otherwise. */
    method CopyCasednIf(cs: CharsetInfo, str: seq<char>, casedn: bool)
      requires Valid()
      modifies this, buff
      ensures Valid()
      ensures ToLexCString().str == if casedn then cs.casedn(str, buffSz) else BinCopy(buffSz, str)
    {
      if casedn {
        CopyCasedn(cs, str);
      } else {
        CopyBin(str);
      }
    }
  }

  /** A NUL-free byte string followed by a NUL is read back whole. */
  lemma {:induction false} CStringStopsAtNul(s: seq<char>)
    requires '\0' !in s
    ensures forall t :: CString(s + ['\0'] + t) == s
  {
    forall t ensures CString(s + ['\0'] + t) == s {
      if s != [] {
        assert (s + ['\0'] + t)[1..] == s[1..] + ['\0'] + t;
        CStringStopsAtNul(s[1..]);
      }
    }
  }
}
