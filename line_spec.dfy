/**
 * Pure definitions behind the batch-mode line reader of client/readline.cc:
 * the byte stream a line buffer still has to deliver, the line at its head,
 * the length the reader reports, the newline / carriage-return stripping of
 * batch_readline and the text that repeated batch_readline_command calls
 * accumulate.
 */
module LineSpec {

  datatype Option<T> = None | Some(value: T)

  /** True when `s` is non-empty and its last byte is `c`. */
  predicate EndsWith(s: seq<char>, c: char) {
    |s| > 0 && s[|s| - 1] == c
  }

  /** True when no byte of `s` is a newline. */
  predicate NoNewline(s: seq<char>) {
    forall i :: 0 <= i < |s| ==> s[i] != '\n'
  }

  /**
   * End-of-input kludge of fill_buffer: an input that is not yet exhausted,
   * whose remaining bytes are non-empty and do not end in a newline, will be
   * given exactly one synthetic '\n' when the file reports end of input.
   */
  function WithKludge(s: seq<char>, eof: bool): (r: seq<char>)
    ensures r == s || (!eof && s != [] && !EndsWith(s, '\n') && r == s + ['\n'])
    ensures !eof && s != [] ==> EndsWith(r, '\n')
  {
    if !eof && s != [] && !EndsWith(s, '\n') then s + ['\n'] else s
  }

  /** Emitting a prefix `a` that stops at a newline, or before more bytes, leaves the kludge to the rest. */
  lemma KludgeSplit(a: seq<char>, b: seq<char>, eof: bool)
    requires a != []
    requires EndsWith(a, '\n') || b != []
    ensures WithKludge(a + b, eof) == a + WithKludge(b, eof)
  {
    if b == [] {
      assert a + b == a;
    } else {
      assert (a + b)[|a + b| - 1] == b[|b| - 1];
      assert (a + b) + ['\n'] == a + (b + ['\n']);
    }
  }

  /**
   * One refill of a line buffer loses no byte: after the tail the buffer
   * holds either the bytes just read (the rest of the file stays unread), or
   * at end of input the synthetic newline or nothing.
   */
  lemma FillConserves(tail: seq<char>, got: seq<char>, before: seq<char>, after: seq<char>,
                      eof: bool, added: seq<char>)
    requires !eof ==> before == got + after && added == got
    requires eof ==> before == [] && after == [] && got == []
    requires eof ==> added == (if tail != [] && !EndsWith(tail, '\n') then ['\n'] else [])
    ensures WithKludge(tail + added + after, eof) == WithKludge(tail + before, false)
  {
    if !eof {
      assert tail + added + after == tail + before;
    } else {
      assert tail + before == tail;
    }
  }

  /** Index of the first newline of `s`, or |s| when there is none. */
  function NewlineIndex(s: seq<char>): (k: nat)
    ensures k <= |s|
    ensures NoNewline(s[..k])
    ensures k < |s| ==> s[k] == '\n'
  {
    if s == [] then 0
    else if s[0] == '\n' then 0
    else
      var k := 1 + NewlineIndex(s[1..]);
      assert s[..k] == [s[0]] + s[1..][..k - 1];
      k
  }

  /**
   * The reader's delivery relation. `span` is the raw span handed out,
   * `before` and `after` are the streams still to deliver around the call,
   * and `trunc` is the truncation flag the call leaves.
   */
  ghost predicate Delivers(before: seq<char>, span: seq<char>, after: seq<char>, trunc: bool)
    ensures Delivers(before, span, after, trunc) ==>
      |span| <= |before| && before[..|span|] == span && |after| < |before|
  {
    span != [] &&
    (trunc <==> !EndsWith(span, '\n')) &&
    NoNewline(span[..|span| - 1]) &&
    (before == span + after || (trunc && after == [] && before == span + ['\n']))
  }

  /**
   * A span delivered without truncation is exactly the first line of the
   * stream, newline included, and the stream left behind is what follows it.
   */
  lemma {:induction false} DeliversFirstLine(before: seq<char>, span: seq<char>, after: seq<char>)
    requires Delivers(before, span, after, false)
    ensures NewlineIndex(before) == |span| - 1
    ensures span == before[..NewlineIndex(before) + 1]
    ensures after == before[NewlineIndex(before) + 1..]
  {
    var k := NewlineIndex(before);
    var n := |span| - 1;
    assert before == span + after;
    assert before[n] == '\n' by { assert before[n] == span[n]; }
    assert forall i :: 0 <= i < n ==> before[i] != '\n' by {
      forall i | 0 <= i < n ensures before[i] != '\n' { assert before[i] == span[..n][i]; }
    }
    assert forall i :: 0 <= i < k ==> before[i] != '\n' by {
      forall i | 0 <= i < k ensures before[i] != '\n' { assert before[i] == before[..k][i]; }
    }
    assert before[..k + 1] == span;
  }

  /**
   * Handing out the first `k` bytes of the buffered bytes `pending` (a whole
   * line, or all of them when the line is broken at the ceiling) is a
   * delivery from the stream they begin.
   */
  lemma EmitDelivers(pending: seq<char>, k: nat, unread: seq<char>, eof: bool, trunc: bool)
    requires 0 < k <= |pending|
    requires NoNewline(pending[..k - 1])
    requires trunc ==> k == |pending| && pending[k - 1] != '\n'
    requires !trunc ==> pending[k - 1] == '\n'
    ensures Delivers(WithKludge(pending + unread, eof), pending[..k], WithKludge(pending[k..] + unread, eof), trunc)
  {
    var span := pending[..k];
    var rest := pending[k..] + unread;
    assert pending + unread == span + rest;
    assert span[..k - 1] == pending[..k - 1];
    if EndsWith(span, '\n') || rest != [] {
      KludgeSplit(span, rest, eof);
    } else {
      assert span == pending + unread;
    }
  }

  /** A prefix of a newline-free sequence is newline-free, and so is the byte after it. */
  lemma NoNewlinePrefix(s: seq<char>, k: nat)
    requires NoNewline(s) && k < |s|
    ensures NoNewline(s[..k]) && s[k] != '\n'
  {
  }

  /** A truncated span carries no newline and is followed by the rest of the stream. */
  lemma TruncatedSpan(before: seq<char>, span: seq<char>, after: seq<char>)
    requires Delivers(before, span, after, true)
    ensures NoNewline(span)
    ensures before[..|span|] == span
    ensures after != [] ==> before == span + after
  {
    assert span == span[..|span| - 1] + [span[|span| - 1]];
    assert (span + after)[..|span|] == span;
    assert (span + ['\n'])[..|span|] == span;
  }

  /**
   * Line length reported by intern_read_line: pos + 1 - eof - start_of_line,
   * so the terminating newline is counted only while the input has not yet
   * reached its end.
   */
  function ReportedLength(span: seq<char>, eof: bool): (n: nat)
    requires span != []
    ensures n == |span| || (eof && n == |span| - 1)
    ensures n == |span| <==> !eof
  {
    |span| - (if eof then 1 else 0)
  }

  /**
   * batch_readline's stripping: one trailing '\n' is removed, and then, unless
   * `binaryMode`, one '\r' directly before it.
   */
  function StripLine(s: seq<char>, binaryMode: bool): (r: seq<char>)
    ensures !EndsWith(s, '\n') ==> r == s
    ensures EndsWith(s, '\n') ==>
      (s == r + ['\n'] && (binaryMode || !EndsWith(r, '\r'))) ||
      (!binaryMode && s == r + ['\r', '\n'])
  {
    if EndsWith(s, '\n') then
      var t := s[..|s| - 1];
      assert s == t + ['\n'];
      if !binaryMode && EndsWith(t, '\r') then
        assert s == t[..|t| - 1] + ['\r', '\n'];
        t[..|t| - 1]
      else t
    else s
  }

  /**
   * A line reported after the end of input has already lost its newline, so
   * stripping leaves it alone and a carriage return before the newline stays.
   * Such lines are every line of a string-seeded buffer, and the final
   * fragment of a stream when it has no newline of its own (the one the
   * synthetic newline ends); a last line with its own newline is read before
   * the end of input and stripped as usual.
   */
  lemma EofLineKeepsCarriageReturn(span: seq<char>, binaryMode: bool)
    requires EndsWith(span, '\n') && NoNewline(span[..|span| - 1])
    ensures StripLine(span[..ReportedLength(span, true)], binaryMode) == span[..|span| - 1]
  {
  }

  /**
   * Where the raw bytes `raw` stand to a span handed out from them: the span
   * and then the rest `after` while the input has not ended, or all of `raw`
   * and the synthetic newline once it has.  End of input is then reached
   * exactly when the span without its last byte is all of `raw`.
   */
  lemma EofIffSyntheticNewline(raw: seq<char>, span: seq<char>, after: seq<char>, eof: bool)
    requires span != []
    requires !eof ==> raw == span + after
    requires eof ==> span == raw + ['\n'] && after == []
    ensures eof <==> raw == span[..|span| - 1]
  {
    if eof {
      assert span[..|span| - 1] == raw;
    } else {
      assert |raw| >= |span|;
    }
  }

  /**
   * The first line batch_readline returns for a file holding `data`: up to
   * and including its first newline, then stripped; with no newline in
   * `data`, all of it, carriage return included.
   */
  function FileFirstLine(data: seq<char>, binaryMode: bool): seq<char>
  {
    var k := NewlineIndex(data);
    if k < |data| then StripLine(data[..k + 1], binaryMode) else data
  }

  /**
   * A span ending in its first newline, handed out from the raw bytes `raw`
   * (the span and then `after` while the input has not ended, or all of
   * `raw` and the synthetic newline once it has): the input has not ended
   * exactly when `raw` holds a newline, the span is then the first line of
   * `raw`, and what batch_readline makes of it is the first line of `raw`.
   */
  lemma {:induction false} FirstLineOfRaw(raw: seq<char>, span: seq<char>, after: seq<char>, eof: bool, binaryMode: bool)
    requires EndsWith(span, '\n') && NoNewline(span[..|span| - 1])
    requires !eof ==> raw == span + after
    requires eof ==> span == raw + ['\n']
    ensures !eof <==> NewlineIndex(raw) < |raw|
    ensures !eof ==> span == raw[..NewlineIndex(raw) + 1]
    ensures StripLine(span[..ReportedLength(span, eof)], binaryMode) == FileFirstLine(raw, binaryMode)
  {
    if eof {
      assert span[..|span| - 1] == raw;
      EofLineKeepsCarriageReturn(span, binaryMode);
    } else {
      DeliversFirstLine(raw, span, after);
      assert span[..|span|] == span;
    }
  }

  /** The first line of a few files: "abc\r\n" keeps its '\r' only in binary mode, while "abc\r" keeps it always. */
  lemma FirstLineExamples()
    ensures FileFirstLine("abc\r\n", false) == "abc"
    ensures FileFirstLine("abc\r\n", true) == "abc\r"
    ensures FileFirstLine("abc\r", false) == "abc\r"
    ensures FileFirstLine("abc\r", true) == "abc\r"
    ensures FileFirstLine("abc", false) == "abc"
    ensures FileFirstLine("abc\n", false) == "abc"
  {
    assert NewlineIndex("abc\r\n") == 4 by {
      assert "abc\r\n"[1..] == "bc\r\n" && "bc\r\n"[1..] == "c\r\n" && "c\r\n"[1..] == "\r\n" && "\r\n"[1..] == "\n";
    }
    assert NewlineIndex("abc\r") == 4 by {
      assert "abc\r"[1..] == "bc\r" && "bc\r"[1..] == "c\r" && "c\r"[1..] == "\r" && "\r"[1..] == "";
    }
    assert NewlineIndex("abc") == 3 by {
      assert "abc"[1..] == "bc" && "bc"[1..] == "c" && "c"[1..] == "";
    }
    assert NewlineIndex("abc\n") == 3 by {
      assert "abc\n"[1..] == "bc\n" && "bc\n"[1..] == "c\n" && "c\n"[1..] == "\n";
    }
    assert "abc\r\n"[..5] == "abc\r\n" && "abc\n"[..4] == "abc\n";
    CrLfPolicy();
    assert "abc\n"[..3] == "abc";
  }

  /** A line reported before the end of input loses its newline and, outside binary mode, a '\r' before it. */
  lemma StreamLineStripped(body: seq<char>, binaryMode: bool)
    requires NoNewline(body)
    ensures StripLine(body + ['\n'], binaryMode) ==
      if !binaryMode && EndsWith(body, '\r') then body[..|body| - 1] else body
  {
    assert (body + ['\n'])[..|body|] == body;
  }

  /** The carriage-return policy on "abc\r\n". */
  lemma CrLfPolicy()
    ensures StripLine("abc\r\n", false) == "abc"
    ensures StripLine("abc\r\n", true) == "abc\r"
  {
    assert "abc\r\n"[..4] == "abc\r";
    assert "abc\r"[..3] == "abc";
  }

  /**
   * The buffer contents after one init_line_buffer_from_string: the final
   * byte of earlier contents (its newline) becomes a space, then the new text
   * and a newline follow.
   */
  function SeedContent(prior: seq<char>, str: seq<char>): (r: seq<char>)
    ensures prior == [] ==> r == str + ['\n']
    ensures prior != [] ==>
      |r| == |prior| + |str| + 1 && r[..|prior| - 1] == prior[..|prior| - 1] && r[|prior| - 1] == ' ' &&
      r[|prior|..] == str + ['\n']
  {
    (if prior == [] then [] else prior[..|prior| - 1] + [' ']) + str + ['\n']
  }

  /** The fragments joined by single spaces, as the comment at client/readline.cc:122-126 describes the accumulated command. */
  function JoinSpaces(frags: seq<seq<char>>): seq<char>
    requires frags != []
  {
    if |frags| == 1 then frags[0]
    else JoinSpaces(frags[..|frags| - 1]) + [' '] + frags[|frags| - 1]
  }

  /** Contents after seeding `frags` one by one onto `init`. */
  function SeedAll(init: seq<char>, frags: seq<seq<char>>): seq<char>
  {
    if frags == [] then init
    else SeedContent(SeedAll(init, frags[..|frags| - 1]), frags[|frags| - 1])
  }

  /** Repeated seeding of an empty buffer gives f1 ' ' f2 ' ' ... fk '\n'. */
  lemma {:induction false} SeedAllJoins(frags: seq<seq<char>>)
    requires frags != []
    ensures SeedAll([], frags) == JoinSpaces(frags) + ['\n']
  {
    var init := frags[..|frags| - 1];
    var f := frags[|frags| - 1];
    if |frags| == 1 {
      assert init == [];
    } else {
      SeedAllJoins(init);
      var prev := JoinSpaces(init) + ['\n'];
      assert prev[..|prev| - 1] == JoinSpaces(init);
    }
  }

  /** No fragment holds a newline. */
  predicate SingleLine(frags: seq<seq<char>>) {
    forall i :: 0 <= i < |frags| ==> NoNewline(frags[i])
  }

  /** Newline-free fragments join into a newline-free line. */
  lemma {:induction false} JoinSpacesSingleLine(frags: seq<seq<char>>)
    requires frags != [] && SingleLine(frags)
    ensures NoNewline(JoinSpaces(frags))
  {
    if |frags| > 1 {
      var init := frags[..|frags| - 1];
      assert SingleLine(init) by {
        forall i | 0 <= i < |init| ensures NoNewline(init[i]) { assert init[i] == frags[i]; }
      }
      JoinSpacesSingleLine(init);
      var j := JoinSpaces(init);
      var f := frags[|frags| - 1];
      assert NoNewline(f);
      forall i | 0 <= i < |j + [' '] + f| ensures (j + [' '] + f)[i] != '\n' {
        if i < |j| { assert (j + [' '] + f)[i] == j[i]; }
        else if i > |j| { assert (j + [' '] + f)[i] == f[i - |j| - 1]; }
      }
    }
  }

  /**
   * Reading back a buffer seeded with `frags`: the first line delivered is
   * the whole command, the fragments joined by spaces plus the final
   * newline, nothing follows it, and the line batch_readline returns at end
   * of input is the joined command itself, with any '\r' kept.
   */
  lemma SeededCommandLine(frags: seq<seq<char>>, span: seq<char>, after: seq<char>, binaryMode: bool)
    requires frags != [] && SingleLine(frags)
    requires Delivers(SeedAll([], frags), span, after, false)
    ensures span == JoinSpaces(frags) + ['\n'] && after == []
    ensures StripLine(span[..ReportedLength(span, true)], binaryMode) == JoinSpaces(frags)
  {
    var command := JoinSpaces(frags);
    SeedAllJoins(frags);
    JoinSpacesSingleLine(frags);
    DeliversFirstLine(SeedAll([], frags), span, after);
    var before := command + ['\n'];
    assert before[..|command|] == command;
    assert NewlineIndex(before) == |command|;
    assert before[..|command| + 1] == before;
    EofLineKeepsCarriageReturn(span, binaryMode);
    assert span[..|span| - 1] == command;
  }
}
