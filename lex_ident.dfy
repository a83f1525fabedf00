/**
 * File-system identifiers of sql/lex_ident.h: Lex_ident_fs and its quick
 * database-name check, and Casedn_ident_buffer, a CharBuffer that folds
 * identifiers to lower case through one fixed charset.
 */
module LexIdent {
  import opened CharBuffers

  /**
   * NAME_LEN: 64 characters of at most 3 bytes each in the system
   * charset (utf8mb3).
   */
  const NameLen: nat := 192

  /** Lex_ident_fs: a LEX_CSTRING naming a database, table or file. */
  datatype LexIdentFs = LexIdentFs(ident: LexCString)
  {
    /**
     * check_db_name_quick: true (reject) for an empty name, one longer than
     * NAME_LEN bytes, or one whose last byte is a space.
     */
    predicate CheckDbNameQuick()
      ensures !CheckDbNameQuick() ==> 0 < ident.Length() <= NameLen && ident.str[ident.Length() - 1] != ' '
    {
      var n := ident.Length();
      n == 0 || n > NameLen || ident.str[n - 1] == ' '
    }
  }

  /** Lex_ident_fs(): the null string of length 0. */
  function DefaultIdentFs(): (id: LexIdentFs)
    ensures id.ident.Length() == 0
  {
    LexIdentFs(LexCString([]))
  }

  /** Lex_ident_fs(str, length): the `length` bytes at `str`. */
  function IdentFsOf(str: seq<char>, length: nat): (id: LexIdentFs)
    requires length <= |str|
    ensures id.ident.Length() == length
    ensures forall i :: 0 <= i < length ==> id.ident.str[i] == str[i]
  {
    LexIdentFs(LexCString(str[..length]))
  }

  /** A name passes the quick check exactly when it is 1..NAME_LEN bytes and does not end in a space. */
  lemma QuickCheckAccepts(id: LexIdentFs)
    ensures !id.CheckDbNameQuick() <==>
      1 <= |id.ident.str| <= NameLen && id.ident.str[|id.ident.str| - 1] != ' '
  {
  }

  /** Each of the three rejections on its own. */
  lemma QuickCheckRejects(id: LexIdentFs)
    ensures id.ident.Length() == 0 ==> id.CheckDbNameQuick()
    ensures id.ident.Length() > NameLen ==> id.CheckDbNameQuick()
    ensures id.ident.Length() > 0 && id.ident.str[id.ident.Length() - 1] == ' ' ==> id.CheckDbNameQuick()
  {
  }

  /** The default Lex_ident_fs is rejected. */
  lemma DefaultRejected()
    ensures DefaultIdentFs().CheckDbNameQuick()
  {
  }

  /**
   * The quick check looks only at the length and the last byte: two names
   * of one length that end alike are both accepted or both rejected.
   */
  lemma QuickCheckLastByte(a: LexIdentFs, b: LexIdentFs)
    requires a.ident.Length() == b.ident.Length() > 0
    requires a.ident.str[a.ident.Length() - 1] == b.ident.str[b.ident.Length() - 1]
    ensures a.CheckDbNameQuick() == b.CheckDbNameQuick()
  {
  }

  /** A buffer-sized name can fail the quick check only by being empty or ending in a space. */
  lemma QuickCheckOfBuffer(cb: CharBuffer)
    requires cb.Valid() && cb.buffSz <= NameLen
    ensures LexIdentFs(cb.ToLexCString()).CheckDbNameQuick() <==>
      cb.Length() == 0 || cb.buff[cb.Length() - 1] == ' '
  {
  }

  /**
   * Casedn_ident_buffer<buff_sz>: a CharBuffer whose case folding always
   * goes through the identifier charset (my_charset_utf8mb3_general_ci in
   * sql/lex_ident.h; here the charset the buffer is built with).
   */
  class CasednIdentBuffer {
    /** The inherited CharBuffer<buff_sz> part. */
    const base: CharBuffer
    /** charset_info(). */
    const charset: CharsetInfo

    ghost predicate Valid()
      reads this, base, base.buff
    {
      base.Valid()
    }

    /** The stored identifier as a Lex_ident_fs, as check_db_name builds it. */
    function IdentFs(): (id: LexIdentFs)
      reads this, base, base.buff
      requires Valid()
      ensures id.ident.Length() <= base.buffSz
    {
      LexIdentFs(base.ToLexCString())
    }

    /** Casedn_ident_buffer(): an empty buffer. */
    constructor (buffSz: nat, charset: CharsetInfo)
      ensures Valid() && fresh(base) && fresh(base.buff)
      ensures base.buffSz == buffSz && this.charset == charset
      ensures base.ToLexCString().str == []
    {
      base := new CharBuffer(buffSz);
      this.charset := charset;
    }

    /** Casedn_ident_buffer(str): the case-folded `str`. */
    constructor Folded(buffSz: nat, charset: CharsetInfo, str: seq<char>)
      ensures Valid() && fresh(base) && fresh(base.buff)
      ensures base.buffSz == buffSz && this.charset == charset
      ensures base.ToLexCString().str == charset.casedn(str, buffSz)
    {
      base := new CharBuffer(buffSz);
      this.charset := charset;
      new;
      base.CopyCasedn(charset, str);
    }

    /** Casedn_ident_buffer(str, casedn): the case-folded `str` when `casedn`, a binary copy otherwise. */
    constructor FoldedIf(buffSz: nat, charset: CharsetInfo, str: seq<char>, casedn: bool)
      ensures Valid() && fresh(base) && fresh(base.buff)
      ensures base.buffSz == buffSz && this.charset == charset
      ensures base.ToLexCString().str == if casedn then charset.casedn(str, buffSz) else BinCopy(buffSz, str)
    {
      base := new CharBuffer(buffSz);
      this.charset := charset;
      new;
      base.CopyCasednIf(charset, str, casedn);
    }

    /** copy_casedn(str): CharBuffer::copy_casedn through the identifier charset. */
    method CopyCasedn(str: seq<char>)
      requires Valid()
      modifies base, base.buff
      ensures Valid() && base.ToLexCString().str == charset.casedn(str, base.buffSz)
    {
      base.CopyCasedn(charset, str);
    }

    /** copy_casedn(str, casedn): CharBuffer::copy_casedn(cs, str, casedn) through the identifier charset. */
    method CopyCasednIf(str: seq<char>, casedn: bool)
      requires Valid()
      modifies base, base.buff
      ensures Valid()
      ensures base.ToLexCString().str == if casedn then charset.casedn(str, base.buffSz) else BinCopy(base.buffSz, str)
    {
      base.CopyCasednIf(charset, str, casedn);
    }
  }
}
