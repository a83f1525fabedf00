/**
 * The batch-mode line reader of client/readline.cc.
 *
 * A LineBuffer owns a growable byte buffer with capacity `bufread` (one more
 * byte is allocated for a sentinel NUL), a growth ceiling `maxSize`, and
 * three cursors kept as offsets into the buffer: `startOfLine` (first byte of
 * the line handed out last), `endOfLine` (where the next scan starts) and
 * `end` (one past the last valid byte).  In stream mode the bytes come from a
 * Source; a buffer seeded by batch_readline_command is already at end of
 * input.  The allocation itself is a sequence that the operations reassign.
 */
module Readline {
  import opened LineSpec

  /** IO_SIZE: fill_buffer requests whole multiples of it. */
  const IoSize: nat := 4096

  /** Outcome of one read request on the file. */
  datatype ReadResult = Got(bytes: seq<char>) | ReadFailed(errno: int)

  /**
   * fill_buffer's return value: a positive count of new bytes, 0 (end of
   * input, or the growth ceiling when `eof` stays unset), or (size_t) -1.
   */
  datatype FillResult = Filled(count: nat) | Nothing | Failed

  /** Where intern_read_line's loop ends: no line, or the line's last byte (a newline unless `trunc`). */
  datatype LineEnd = NoLine | LineAt(pos: nat, trunc: bool)

  /** How fill_buffer's growth loop ends: room for a read of `readCount` bytes, the ceiling, or a failed reallocation. */
  datatype Growth = Room(readCount: nat) | Ceiling | GrowFailed

  /** The open file behind a stream-mode buffer: the bytes it has not handed out yet. */
  class Source {
    var rest: seq<char>

    constructor (data: seq<char>)
      ensures rest == data
    {
      rest := data;
    }

    /**
     * my_read on a blocking descriptor: it may fail with a non-zero errno;
     * otherwise it hands out the next 0..n bytes of the file, and 0 bytes
     * only when the file is exhausted.  How many bytes one call returns is
     * up to the operating system.
     */
    method Read(n: nat) returns (r: ReadResult)
      modifies this
      ensures r.ReadFailed? ==> r.errno != 0 && rest == old(rest)
      ensures r.Got? ==> |r.bytes| <= n && old(rest) == r.bytes + rest
      ensures r.Got? && n > 0 ==> (r.bytes == [] <==> old(rest) == [])
    {
      var fails: bool :| true;
      if fails {
        var e: int :| 1 <= e <= 255;
        return ReadFailed(e);
      }
      var bound := if n < |rest| then n else |rest|;
      var k: nat :| k <= bound && (bound > 0 ==> k >= 1);
      r := Got(rest[..k]);
      rest := rest[k..];
    }
  }

  class LineBuffer {
    var file: Source?
    var buffer: seq<char>
    var bufread: nat
    var maxSize: nat
    var startOfLine: nat
    var endOfLine: nat
    var end: nat
    var eof: bool
    var truncated: bool
    var error: int
    var readLength: nat
    /** Size of the last read request fill_buffer issued. */
    ghost var requested: nat

    /**
     * Cursor order, the sentinel at `end`, and in stream mode the file, the
     * allocation of bufread + 1 bytes and a capacity of at least IO_SIZE.
     * Once at end of input the unscanned bytes are empty or end in a newline.
     */
    ghost predicate Valid()
      reads this`startOfLine, this`endOfLine, this`end, this`eof, this`file, this`buffer, this`bufread, file
    {
      startOfLine <= endOfLine <= end < |buffer| &&
      buffer[end] == '\0' &&
      (!eof ==> file != null && |buffer| == bufread + 1 && bufread >= IoSize) &&
      (eof ==> endOfLine == end || buffer[end - 1] == '\n')
    }

    /** The file bytes still to be read; none once at end of input. */
    ghost function Unread(): seq<char>
      reads this`eof, this`file, file
      requires !eof ==> file != null
    {
      if eof then [] else file.rest
    }

    /** Every byte the reader will still deliver, from `endOfLine` on, the synthetic newline included. */
    ghost function Stream(): seq<char>
      reads this`startOfLine, this`endOfLine, this`end, this`eof, this`file, this`buffer, this`bufread, file
      requires Valid()
    {
      WithKludge(buffer[endOfLine..end] + Unread(), eof)
    }

    /** Every byte the reader will still deliver, counted from `startOfLine`. */
    ghost function TailStream(): seq<char>
      reads this`startOfLine, this`end, this`eof, this`file, this`buffer, file
      requires startOfLine <= end < |buffer|
      requires !eof ==> file != null
    {
      WithKludge(buffer[startOfLine..end] + Unread(), eof)
    }

    /** The bytes still to deliver from `endOfLine` on as the file holds them, without the synthetic newline. */
    ghost function Raw(): seq<char>
      reads this`endOfLine, this`end, this`eof, this`file, this`buffer, file
      requires endOfLine <= end <= |buffer|
      requires !eof ==> file != null
    {
      buffer[endOfLine..end] + Unread()
    }

    /** The bytes still to deliver from `startOfLine` on as the file holds them. */
    ghost function TailRaw(): seq<char>
      reads this`startOfLine, this`end, this`eof, this`file, this`buffer, file
      requires startOfLine <= end <= |buffer|
      requires !eof ==> file != null
    {
      buffer[startOfLine..end] + Unread()
    }

    /** The raw span handed out by the last intern_read_line. */
    ghost function LineSpan(): seq<char>
      reads this`startOfLine, this`endOfLine, this`buffer
      requires startOfLine <= endOfLine <= |buffer|
    {
      buffer[startOfLine..endOfLine]
    }

    /** What init_line_buffer_from_string needs: the old contents are readable. */
    ghost predicate Seedable()
      reads this
    {
      end <= |buffer|
    }

    /** A LINE_BUFFER as my_malloc with MY_ZEROFILL returns it. */
    constructor Zeroed()
      ensures file == null && buffer == [] && bufread == 0 && maxSize == 0
      ensures startOfLine == 0 && endOfLine == 0 && end == 0
      ensures !eof && !truncated && error == 0 && readLength == 0
      ensures Seedable()
    {
      file := null;
      buffer := [];
      bufread, maxSize := 0, 0;
      startOfLine, endOfLine, end := 0, 0, 0;
      eof, truncated := false, false;
      error, readLength := 0, 0;
      requested := 0;
    }

    /**
     * my_realloc: either fails with a non-zero errno and leaves the buffer
     * alone, or yields a buffer of `size` bytes that starts with the old
     * contents; bytes beyond them are arbitrary.
     */
    method Reallocate(size: nat) returns (ok: bool, errno: int)
      modifies this`buffer
      ensures !ok ==> errno != 0 && buffer == old(buffer)
      ensures ok ==> |buffer| == size
      ensures ok ==> forall i :: 0 <= i < |old(buffer)| && i < size ==> buffer[i] == old(buffer)[i]
    {
      var fails: bool :| true;
      if fails {
        var e: int :| 1 <= e <= 255;
        return false, e;
      }
      if size <= |buffer| {
        buffer := buffer[..size];
      } else {
        ghost var blank := seq(size - |buffer|, _ => '\0');
        assert |blank| == size - |buffer|;
        var extra: seq<char> :| |extra| == size - |buffer|;
        buffer := buffer + extra;
      }
      ok, errno := true, 0;
    }

    /**
     * init_line_buffer: a stream buffer of `size` bytes over `file`, empty and
     * terminated; true when allocating the buffer fails.  batch_readline_init,
     * its only caller, passes IO_SIZE; fill_buffer relies on a capacity of at
     * least IO_SIZE.
     */
    method InitLineBuffer(file: Source, size: nat, maxBuffer: nat) returns (failed: bool)
      requires size >= IoSize
      requires !eof
      modifies this
      ensures this.file == file && bufread == size && maxSize == maxBuffer
      ensures truncated == old(truncated) && error == old(error) && readLength == old(readLength)
      ensures !failed ==> Valid() && |buffer| == size + 1
      ensures !failed ==> startOfLine == 0 && endOfLine == 0 && end == 0 && !eof
      ensures !failed ==> Stream() == WithKludge(file.rest, false) && Raw() == file.rest
    {
      this.file := file;
      bufread := size;
      maxSize := maxBuffer;
      var obtained: bool :| true;
      if !obtained {
        return true;
      }
      ghost var blank := seq(bufread + 1, _ => '\0');
      assert |blank| == bufread + 1;
      var bytes: seq<char> :| |bytes| == bufread + 1;
      // start_of_line is not set here; intern_read_line sets it before use.
      startOfLine, endOfLine, end := 0, 0, 0;
      buffer := bytes[0 := '\0'];
      assert buffer[endOfLine..end] + Unread() == file.rest;
      failed := false;
    }

    /**
     * batch_readline_init: no buffer for a directory or block device
     * (`rejectedKind` stands for the fstat test) or when allocating the
     * LINE_BUFFER or its buffer fails; otherwise a fresh stream buffer over
     * `file`.
     */
    static method BatchReadlineInit(maxSize: nat, file: Source, rejectedKind: bool) returns (lb: LineBuffer?)
      ensures rejectedKind ==> lb == null
      ensures lb != null ==> fresh(lb) && lb.Valid() && lb.file == file
      ensures lb != null ==> lb.bufread == IoSize && lb.maxSize == maxSize && !lb.eof && !lb.truncated && lb.error == 0
      ensures lb != null ==> lb.Stream() == WithKludge(file.rest, false) && lb.Raw() == file.rest
    {
      if rejectedKind {
        return null;
      }
      var obtained: bool :| true;
      if !obtained {
        return null;
      }
      lb := new LineBuffer.Zeroed();
      var failed := lb.InitLineBuffer(file, IoSize, maxSize);
      if failed {
        return null;
      }
    }

    /**
     * init_line_buffer_from_string: append `str` (the bytes of the C string,
     * which holds no NUL before its end) after the old contents, the old final byte becoming a space, then a
     * newline and a NUL; rewind the cursors and mark the input as ended.
     * Reports true when the reallocation fails.
     */
    method InitLineBufferFromString(str: seq<char>) returns (failed: bool)
      requires '\0' !in str
      requires Seedable()
      modifies this
      ensures file == old(file) && bufread == old(bufread) && truncated == old(truncated)
      ensures error == old(error) && readLength == old(readLength)
      ensures !failed ==> Valid() && eof && maxSize == 1
      ensures !failed ==> startOfLine == 0 && endOfLine == 0 && |buffer| == end + 1
      ensures !failed ==> buffer[..end] == SeedContent(old(buffer[..end]), str)
      ensures !failed ==> Stream() == buffer[..end]
    {
      var oldLength := end;
      ghost var prior := buffer[..end];
      var ok, _ := Reallocate(oldLength + |str| + 2);
      if !ok {
        return true;
      }
      Seed(oldLength, str, prior);
      failed := false;
    }

    /**
     * The writes of init_line_buffer_from_string into a reallocated buffer
     * of oldLength + |str| + 2 bytes that starts with the old contents
     * `prior`: space, text, newline, NUL, then the cursors and flags.
     */
    method Seed(oldLength: nat, str: seq<char>, ghost prior: seq<char>)
      requires |buffer| == oldLength + |str| + 2 && |prior| == oldLength && buffer[..oldLength] == prior
      modifies this`buffer, this`startOfLine, this`endOfLine, this`end, this`eof, this`maxSize
      ensures Valid() && eof && maxSize == 1
      ensures startOfLine == 0 && endOfLine == 0 && |buffer| == end + 1
      ensures buffer[..end] == SeedContent(prior, str)
      ensures Stream() == buffer[..end]
    {
      var head := buffer[..oldLength];
      if oldLength != 0 {
        // The old final newline becomes a space.
        head := head[oldLength - 1 := ' '];
        assert head == prior[..oldLength - 1] + [' '];
      }
      // The text, its newline and the NUL after them.
      var text := head + str + ['\n'];
      buffer := text + ['\0'];
      startOfLine, endOfLine, end := 0, 0, |text|;
      eof := true;
      maxSize := 1;
      assert buffer[..end] == text;
    }

    /**
     * batch_readline_command: seed `str` into `lb`, or into a fresh zero-filled
     * LINE_BUFFER when `lb` is null.  No buffer results when that allocation
     * or the reallocation fails.
     */
    static method BatchReadlineCommand(lb: LineBuffer?, str: seq<char>) returns (r: LineBuffer?)
      requires '\0' !in str
      requires lb != null ==> lb.Seedable()
      modifies lb
      ensures r != null ==> (if lb == null then fresh(r) else r == lb)
      ensures r != null ==> r.Valid() && r.eof && r.maxSize == 1 && r.startOfLine == 0 && r.endOfLine == 0
      ensures r != null ==> r.buffer[..r.end] == SeedContent(if lb == null then [] else old(lb.buffer[..lb.end]), str)
      ensures r != null ==> r.Stream() == r.buffer[..r.end]
      ensures r != null ==> r.error == (if lb == null then 0 else old(lb.error))
      ensures r != null ==> r.file == (if lb == null then null else old(lb.file))
      ensures r != null ==> r.truncated == (lb != null && old(lb.truncated))
      ensures r != null ==> r.readLength == (if lb == null then 0 else old(lb.readLength))
    {
      r := lb;
      if r == null {
        var obtained: bool :| true;
        if !obtained {
          return null;
        }
        r := new LineBuffer.Zeroed();
      }
      var failed := r.InitLineBufferFromString(str);
      if failed {
        return null;
      }
    }

    /**
     * The growth loop of fill_buffer: double the capacity while the room
     * after the `bufbytes` unconsumed bytes holds no whole IO_SIZE, stopping
     * at the ceiling.  Offsets survive a reallocation; after one, `end` is
     * set to `bufbytes`, as fill_buffer does, and the shift that follows puts
     * the tail there.
     */
    method Grow(bufbytes: nat) returns (g: Growth)
      requires bufbytes == end - startOfLine && startOfLine <= end < |buffer|
      requires |buffer| == bufread + 1 && bufread >= IoSize
      modifies this`bufread, this`buffer, this`startOfLine, this`end, this`error
      ensures startOfLine == old(startOfLine)
      ensures g != GrowFailed ==> |buffer| == bufread + 1
      ensures g != GrowFailed ==> error == old(error)
      ensures g == GrowFailed ==> error != 0
      ensures g == Ceiling ==>
        bufread == old(bufread) && buffer == old(buffer) && end == old(end) &&
        bufread < bufbytes + IoSize && 2 * bufread > maxSize
      ensures g.Room? ==>
        0 < g.readCount <= bufread - bufbytes && g.readCount % IoSize == 0 &&
        startOfLine + bufbytes <= bufread &&
        buffer[startOfLine..startOfLine + bufbytes] == old(buffer[startOfLine..end])
      ensures g.Room? ==>
        (bufread == old(bufread) && buffer == old(buffer) && end == old(end)) ||
        (bufread == 2 * old(bufread) <= maxSize && end == bufbytes)
    {
      ghost var tail := buffer[startOfLine..end];
      ghost var grown := false;
      while true
        invariant |buffer| == bufread + 1 && bufread >= IoSize && startOfLine == old(startOfLine)
        invariant startOfLine + bufbytes <= bufread && error == old(error)
        invariant buffer[startOfLine..startOfLine + bufbytes] == tail
        invariant !grown ==> bufread == old(bufread) && buffer == old(buffer) && end == old(end)
        invariant grown ==> bufread == 2 * old(bufread) <= maxSize
        invariant grown ==> end == bufbytes && bufread >= bufbytes + IoSize
        decreases if bufread < bufbytes + IoSize then bufbytes + IoSize - bufread else 0
      {
        var startOffset := startOfLine;
        var readCount := (bufread - bufbytes) / IoSize * IoSize;
        if readCount != 0 {
          return Room(readCount);
        }
        assert bufread - bufbytes < IoSize;
        if bufread * 2 > maxSize {
          // The buffer must grow but max_size forbids it.
          return Ceiling;
        }
        bufread := bufread * 2;
        var ok, errno := Reallocate(bufread + 1);
        if !ok {
          error := errno;
          return GrowFailed;
        }
        startOfLine := startOffset;
        end := bufbytes;
        grown := true;
      }
    }

    /**
     * fill_buffer: grow the buffer if needed, move the unconsumed tail
     * startOfLine..end to offset 0, read a whole number of IO_SIZE units into
     * the room after it and apply the end-of-input newline kludge.
     */
    method FillBuffer() returns (r: FillResult)
      requires Valid()
      modifies this`bufread, this`buffer, this`startOfLine, this`endOfLine, this`end, this`eof, this`error, this`requested, file
      ensures r != Failed ==> error == old(error)
      // end of input already reached: nothing changes
      ensures old(eof) ==> r == Nothing && unchanged(this)
      // growth ceiling: nothing changes and eof stays unset
      ensures r == Nothing && !eof ==>
        !old(eof) && unchanged(this) && file.rest == old(file.rest) &&
        bufread < end - startOfLine + IoSize && 2 * bufread > maxSize
      // any outcome but a failure keeps the buffer valid and loses no byte
      ensures r != Failed ==> Valid() && TailStream() == old(TailStream())
      ensures r.Filled? || (r == Nothing && eof && !old(eof)) ==>
        startOfLine == 0 && endOfLine == old(end - startOfLine) && buffer[..endOfLine] == old(buffer[startOfLine..end])
      ensures r == Nothing && eof && !old(eof) ==> end == endOfLine
      ensures r != Failed ==> bufread == old(bufread) || bufread == 2 * old(bufread) <= maxSize
      ensures r.Filled? ==>
        r.count > 0 && end == endOfLine + r.count && end <= bufread &&
        requested % IoSize == 0 && r.count <= requested <= bufread - endOfLine
      ensures r.Filled? && !eof ==>
        old(file.rest) == buffer[endOfLine..end] + file.rest
      ensures r.Filled? && eof ==> !old(eof) && r.count == 1 && buffer[endOfLine] == '\n'
      // end of input is reached only by a read that found the file exhausted
      ensures eof && !old(eof) ==> old(file.rest) == []
      ensures r == Failed ==> !old(eof) && error != 0
    {
      var bufbytes := end - startOfLine;
      if eof {
        return Nothing;
      }
      ghost var tail := buffer[startOfLine..end];
      var g := Grow(bufbytes);
      if g == Ceiling {
        // 0 without setting eof signals the ceiling.
        return Nothing;
      } else if g == GrowFailed {
        return Failed;
      }
      // Shift the unconsumed tail down to offset 0.
      if startOfLine != 0 {
        ShiftDown(bufbytes);
      }
      r := ReadIn(bufbytes, g.readCount, tail);
    }

    /**
     * The second half of fill_buffer, once the `bufbytes` unconsumed bytes
     * `tail` sit at offset 0 with room for `readCount` more: read after them,
     * apply the end-of-input kludge and terminate the buffer.
     */
    method ReadIn(bufbytes: nat, readCount: nat, ghost tail: seq<char>) returns (r: FillResult)
      requires !eof && file != null
      requires |buffer| == bufread + 1 && bufread >= IoSize
      requires 0 < readCount <= bufread - bufbytes && readCount % IoSize == 0
      requires end == bufbytes && buffer[..bufbytes] == tail
      modifies this`buffer, this`eof, this`startOfLine, this`endOfLine, this`end, this`error, this`requested, file
      ensures r == Failed ==> !eof && error != 0
      ensures r != Failed ==> error == old(error)
      ensures r != Failed ==> Valid() && TailStream() == WithKludge(tail + old(file.rest), false)
      ensures r != Failed ==> startOfLine == 0 && endOfLine == bufbytes && buffer[..endOfLine] == tail
      ensures r == Nothing ==> eof && end == endOfLine
      ensures r.Filled? ==> r.count > 0 && end == endOfLine + r.count && end <= bufread && r.count <= readCount == requested
      ensures r.Filled? && !eof ==>
        old(file.rest) == buffer[endOfLine..end] + file.rest
      ensures r.Filled? && eof ==> r.count == 1 && buffer[endOfLine] == '\n'
      ensures eof ==> old(file.rest) == []
    {
      ghost var rest0 := file.rest;
      // Read in new bytes after the tail.
      var got := file.Read(readCount);
      if got.ReadFailed? {
        error, requested := got.errno, readCount;
        return Failed;
      }
      var added := got.bytes;
      var atEof := false;
      if |added| == 0 {
        atEof := true;
        // Pretend every nonempty file ends with a newline.
        if bufbytes != 0 && buffer[bufbytes - 1] != '\n' {
          added := ['\n'];
        }
      }
      Deposit(bufbytes, added, atEof, tail);
      requested := readCount;
      r := if |added| == 0 then Nothing else Filled(|added|);
      FillConserves(tail, got.bytes, rest0, Unread(), eof, added);
    }

    /**
     * The end of fill_buffer: `added` goes after the `bufbytes`-byte tail,
     * the cursors are reset around it and the NUL sentinel follows.
     */
    method Deposit(bufbytes: nat, added: seq<char>, atEof: bool, ghost tail: seq<char>)
      requires bufbytes + |added| < |buffer|
      requires end == bufbytes && buffer[..bufbytes] == tail
      modifies this`buffer, this`eof, this`startOfLine, this`endOfLine, this`end
      ensures eof == atEof && startOfLine == 0 && endOfLine == bufbytes && end == bufbytes + |added|
      ensures |buffer| == old(|buffer|)
      ensures buffer[..end] == tail + added && buffer[endOfLine..end] == added && buffer[end] == '\0'
    {
      var newEnd := bufbytes + |added|;
      buffer := buffer[..bufbytes] + added + ['\0'] + buffer[newEnd + 1..];
      assert buffer[..newEnd] == tail + added;
      assert buffer[bufbytes..newEnd] == added;
      eof, startOfLine, endOfLine, end := atEof, 0, bufbytes, newEnd;
    }

    /** bmove in fill_buffer: the `bufbytes` bytes at `startOfLine` move to offset 0. */
    method ShiftDown(bufbytes: nat)
      requires startOfLine + bufbytes < |buffer|
      modifies this`buffer, this`end
      ensures end == bufbytes && |buffer| == old(|buffer|)
      ensures buffer[..bufbytes] == old(buffer[startOfLine..startOfLine + bufbytes])
    {
      buffer := buffer[startOfLine..startOfLine + bufbytes] + buffer[bufbytes..];
      end := bufbytes;
    }

    /**
     * The scan of intern_read_line: from `from` on, the first newline, or
     * `end` when there is none; the line begun at `startOfLine` so far holds
     * no newline.
     */
    method Scan(from: nat) returns (pos: nat)
      requires startOfLine <= from <= end < |buffer|
      requires NoNewline(buffer[startOfLine..from])
      ensures from <= pos <= end
      ensures NoNewline(buffer[startOfLine..pos])
      ensures pos < end ==> buffer[pos] == '\n'
    {
      pos := from;
      while buffer[pos] != '\n' && pos != end
        invariant from <= pos <= end
        invariant NoNewline(buffer[startOfLine..pos])
        decreases end - pos
      {
        assert buffer[startOfLine..pos + 1] == buffer[startOfLine..pos] + [buffer[pos]];
        pos := pos + 1;
      }
    }

    /**
     * The delivery intern_read_line completes once it has moved `endOfLine`
     * past the line's last byte: the span startOfLine..endOfLine, a whole
     * line or the buffered bytes broken at the ceiling, comes off the front
     * of `target`, and what is left is the stream from `endOfLine` on.
     */
    lemma EmittedDelivers(target: seq<char>)
      requires startOfLine < endOfLine <= end < |buffer| && buffer[end] == '\0'
      requires !eof ==> file != null && |buffer| == bufread + 1 && bufread >= IoSize
      requires eof ==> buffer[end - 1] == '\n'
      requires TailStream() == target
      requires truncated ==> !eof && endOfLine == end && NoNewline(buffer[startOfLine..end])
      requires !truncated ==> NoNewline(buffer[startOfLine..endOfLine - 1]) && buffer[endOfLine - 1] == '\n'
      ensures Valid() && Delivers(target, LineSpan(), Stream(), truncated)
    {
      var pending := buffer[startOfLine..end];
      var k := endOfLine - startOfLine;
      if truncated {
        NoNewlinePrefix(pending, k - 1);
      }
      assert pending[..k - 1] == buffer[startOfLine..endOfLine - 1] && pending[k - 1] == buffer[endOfLine - 1];
      assert LineSpan() == pending[..k] && buffer[endOfLine..end] == pending[k..];
      EmitDelivers(pending, k, Unread(), eof, truncated);
    }

    /**
     * What intern_read_line keeps while it looks for the end of a line:
     * the buffer is valid, the part of the line scanned so far holds no
     * newline, no byte of `target` (the stream at the call) has been lost,
     * and at end of input a partly scanned line is followed by its newline.
     */
    ghost predicate Scanning(target: seq<char>)
      reads this`startOfLine, this`endOfLine, this`end, this`eof, this`file, this`buffer, this`bufread, file
    {
      Valid() &&
      NoNewline(buffer[startOfLine..endOfLine]) &&
      TailStream() == target &&
      (eof && startOfLine != endOfLine ==> endOfLine < end && buffer[end - 1] == '\n')
    }

    /**
     * The state in which the growth ceiling stops fill_buffer: not at end of
     * input, a non-empty buffered line without a newline, no room for a whole
     * IO_SIZE after it, and doubling the capacity would pass `maxSize`.
     */
    ghost predicate Capped()
      reads this`startOfLine, this`endOfLine, this`end, this`eof, this`file, this`buffer, this`bufread, this`maxSize, file
    {
      Valid() && !eof && startOfLine < end && NoNewline(buffer[startOfLine..end]) &&
      bufread < end - startOfLine + IoSize && 2 * bufread > maxSize
    }

    /** End of input with nothing left: `target`, the stream at the call, was empty. */
    ghost predicate Drained(target: seq<char>)
      reads this`startOfLine, this`endOfLine, this`end, this`eof, this`file, this`buffer, this`bufread, file
    {
      Valid() && eof && target == [] && Stream() == []
    }

    /** What bounds the refills of one intern_read_line: the unread bytes, then the end of input. */
    ghost function Progress(): nat
      reads this`eof, this`file, file
      requires !eof ==> file != null
    {
      if eof then 0 else |file.rest| + 1
    }

    /**
     * The refill of intern_read_line when the scan has reached `end`: a
     * successful fill keeps scanning with fewer bytes to read; end of input
     * means the stream was empty; the ceiling leaves a newline-free buffered
     * line and stops growth.
     */
    method Refill(ghost target: seq<char>) returns (length: FillResult)
      requires Scanning(target) && NoNewline(buffer[startOfLine..end])
      modifies this`bufread, this`buffer, this`startOfLine, this`endOfLine, this`end, this`eof, this`error, this`requested, file
      ensures length != Failed ==> error == old(error)
      ensures old(eof) ==> eof && length == Nothing
      ensures length == Failed ==> !old(eof) && error != 0
      ensures length != Failed ==> bufread == old(bufread) || bufread == 2 * old(bufread) <= maxSize
      ensures length.Filled? ==> Scanning(target) && Progress() < old(Progress()) && end <= bufread
      ensures length.Filled? && !eof ==> TailRaw() == old(TailRaw())
      ensures length.Filled? && eof ==>
        !old(eof) && buffer[startOfLine..end] == old(TailRaw()) + ['\n'] && NoNewline(old(TailRaw()))
      ensures length == Nothing && eof ==> Drained(target)
      ensures length == Nothing && !eof ==> Capped() && TailStream() == target && end == old(end)
      ensures length == Nothing && !eof ==> TailRaw() == old(TailRaw())
    {
      ghost var whole := buffer[startOfLine..end];
      ghost var rest0 := Unread();
      length := FillBuffer();
      if length.Filled? {
        assert buffer[startOfLine..endOfLine] == whole;
        RefilledRaw(whole, rest0);
      } else if length == Nothing && eof {
        if old(eof) {
          assert whole == buffer[startOfLine..endOfLine] + buffer[endOfLine..end];
        }
        assert buffer[startOfLine..end] == [];
      }
    }

    /**
     * The raw bytes after a successful refill that left the `whole` tail at
     * offset 0, when `rest0` was the unread file before it: the same bytes
     * when the file gave new ones, the tail and the synthetic newline at end
     * of input.
     */
    lemma RefilledRaw(whole: seq<char>, rest0: seq<char>)
      requires startOfLine == 0 && endOfLine <= end <= |buffer| && buffer[..endOfLine] == whole
      requires !eof ==> file != null && rest0 == buffer[endOfLine..end] + file.rest
      requires eof ==> end == endOfLine + 1 && buffer[endOfLine] == '\n' && rest0 == []
      ensures !eof ==> TailRaw() == whole + rest0
      ensures eof ==> buffer[startOfLine..end] == whole + rest0 + ['\n']
    {
      assert buffer[startOfLine..end] == whole + buffer[endOfLine..end];
    }

    /**
     * The loop of intern_read_line: scan for a newline and refill at `end`
     * until a line end is found (`trunc` when the ceiling forced it), the
     * input ends or a read fails.
     */
    method FindLineEnd(ghost target: seq<char>) returns (found: LineEnd)
      requires Scanning(target)
      modifies this`bufread, this`buffer, this`startOfLine, this`endOfLine, this`end, this`eof, this`error, this`requested, file
      ensures old(eof) ==> eof && error == old(error)
      ensures !found.NoLine? ==> error == old(error)
      ensures !found.NoLine? ==> old(bufread) <= bufread && (bufread == old(bufread) || bufread <= maxSize)
      ensures found.LineAt? ==> Valid() && TailStream() == target && startOfLine <= found.pos < end
      // a stream buffer never holds more than its capacity, even once end of input is met
      ensures found.LineAt? && !old(eof) ==> end <= bufread
      ensures found.LineAt? && eof ==> buffer[end - 1] == '\n'
      ensures found.LineAt? && found.trunc ==> Capped() && found.pos == end - 1
      ensures found.LineAt? && !found.trunc ==>
        NoNewline(buffer[startOfLine..found.pos]) && buffer[found.pos] == '\n' && endOfLine <= found.pos
      ensures found.LineAt? && !eof ==> TailRaw() == old(TailRaw())
      ensures found.LineAt? && eof && !old(eof) ==>
        buffer[startOfLine..end] == old(TailRaw()) + ['\n'] && found.pos == end - 1
      ensures found.NoLine? ==> (!old(eof) && error != 0) || (Drained(target) && error == old(error))
    {
      ghost var raw := TailRaw();
      while true
        invariant Scanning(target)
        invariant error == old(error) && (old(eof) ==> eof)
        invariant old(bufread) <= bufread && (bufread == old(bufread) || bufread <= maxSize)
        invariant !old(eof) ==> end <= bufread
        invariant !eof ==> TailRaw() == raw
        invariant eof && !old(eof) ==> buffer[startOfLine..end] == raw + ['\n'] && NoNewline(raw)
        decreases Progress()
      {
        var pos := Scan(endOfLine);
        if pos != end {
          if eof && !old(eof) {
            // The synthetic newline is the first one.
            FirstNewlineIsLast(buffer, startOfLine, end, pos, raw);
          }
          return LineAt(pos, false);
        }
        var length := Refill(target);
        if length == Nothing {
          if eof {
            return NoLine;
          }
        } else if length == Failed {
          return NoLine;
        } else {
          continue;
        }
        // The ceiling stopped growth: break the line here.
        return LineAt(pos - 1, true);
      }
    }

    /**
     * intern_read_line: hand out the next line, starting at `startOfLine`,
     * as its reported length.  The scan stops at the first newline; when it
     * reaches `end` the buffer is refilled; when the ceiling stops growth,
     * everything up to `end` becomes the line and `truncated` is set.  The
     * next scan starts after the line, and the reported length leaves out
     * the newline once the input has ended.
     */
    method InternReadLine() returns (r: Option<nat>)
      requires Valid()
      modifies this`bufread, this`buffer, this`startOfLine, this`endOfLine, this`end, this`eof, this`error, this`requested, this`truncated, file
      ensures old(eof) ==> eof && error == old(error)
      ensures r.Some? ==> Valid() && Delivers(old(Stream()), LineSpan(), Stream(), truncated)
      ensures r.Some? ==> r.value == ReportedLength(LineSpan(), eof)
      ensures r.Some? && truncated ==>
        !eof && endOfLine == end && bufread < endOfLine - startOfLine + IoSize && 2 * bufread > maxSize
      ensures r.Some? ==> error == old(error) && old(bufread) <= bufread && (bufread == old(bufread) || bufread <= maxSize)
      // before end of input the span is the next bytes of the file
      ensures r.Some? && !eof ==> old(Raw()) == LineSpan() + Raw()
      // end of input reached during the call: the span is the rest of the file and the synthetic newline
      ensures r.Some? && eof && !old(eof) ==> LineSpan() == old(Raw()) + ['\n'] && Raw() == []
      // the span of a stream buffer fits its capacity
      ensures r.Some? && !old(eof) ==> endOfLine <= bufread
      ensures r.None? ==>
        (!old(eof) && error != 0) || (Valid() && eof && old(Stream()) == [] && Stream() == [] && error == old(error))
      ensures r.None? ==> truncated == old(truncated)
      ensures old(Stream()) == [] ==> r.None?
    {
      startOfLine := endOfLine;
      assert TailRaw() == old(Raw());
      r := ReadLine(old(Stream()));
    }

    /** The body of intern_read_line once `startOfLine` is set: find the line's end, then hand the line out. */
    method ReadLine(ghost target: seq<char>) returns (r: Option<nat>)
      requires Scanning(target)
      modifies this`bufread, this`buffer, this`startOfLine, this`endOfLine, this`end, this`eof, this`error, this`requested, this`truncated, file
      ensures old(eof) ==> eof && error == old(error)
      ensures r.Some? ==> Valid() && Delivers(target, LineSpan(), Stream(), truncated)
      ensures r.Some? ==> r.value == ReportedLength(LineSpan(), eof)
      ensures r.Some? && truncated ==>
        !eof && endOfLine == end && bufread < endOfLine - startOfLine + IoSize && 2 * bufread > maxSize
      ensures r.Some? ==> error == old(error) && old(bufread) <= bufread && (bufread == old(bufread) || bufread <= maxSize)
      ensures r.Some? && !eof ==> old(TailRaw()) == LineSpan() + Raw()
      ensures r.Some? && eof && !old(eof) ==> LineSpan() == old(TailRaw()) + ['\n'] && Raw() == []
      ensures r.Some? && !old(eof) ==> endOfLine <= bufread
      ensures r.None? ==>
        (!old(eof) && error != 0) || (Valid() && eof && target == [] && Stream() == [] && error == old(error))
      ensures r.None? ==> truncated == old(truncated)
    {
      ghost var raw := TailRaw();
      ghost var wasEof := eof;
      var found := FindLineEnd(target);
      if found.NoLine? {
        return None;
      }
      var length := Emit(target, found, raw, !wasEof);
      r := Some(length);
    }

    /**
     * The end of intern_read_line once its loop has stopped at `found`: set
     * `truncated`, move `endOfLine` past the line and report its length.
     * `raw` is what the file still held from `startOfLine` on when the scan
     * began, and `newEof` says that end of input was reached since.
     */
    method Emit(ghost target: seq<char>, found: LineEnd, ghost raw: seq<char>, ghost newEof: bool) returns (length: nat)
      requires found.LineAt?
      requires Valid() && TailStream() == target && startOfLine <= found.pos < end
      requires eof ==> buffer[end - 1] == '\n'
      requires found.trunc ==> Capped() && found.pos == end - 1
      requires !found.trunc ==> NoNewline(buffer[startOfLine..found.pos]) && buffer[found.pos] == '\n'
      requires !eof ==> TailRaw() == raw
      requires eof && newEof ==> buffer[startOfLine..end] == raw + ['\n'] && found.pos == end - 1
      modifies this`truncated, this`endOfLine
      ensures endOfLine == found.pos + 1 && truncated == found.trunc
      ensures Valid() && Delivers(target, LineSpan(), Stream(), truncated)
      ensures length == ReportedLength(LineSpan(), eof)
      ensures truncated ==>
        !eof && endOfLine == end && bufread < endOfLine - startOfLine + IoSize && 2 * bufread > maxSize
      ensures !eof ==> raw == LineSpan() + Raw()
      ensures eof && newEof ==> LineSpan() == raw + ['\n'] && Raw() == []
    {
      truncated, endOfLine := found.trunc, found.pos + 1;
      length := found.pos + 1 - (if eof then 1 else 0) - startOfLine;
      EmittedDelivers(target);
      EmittedRaw(raw, newEof);
    }

    /** The raw bytes around a span just handed out: the span and then the rest, or the span is the rest and the synthetic newline. */
    lemma EmittedRaw(raw: seq<char>, newEof: bool)
      requires startOfLine <= endOfLine <= end <= |buffer|
      requires !eof ==> file != null && TailRaw() == raw
      requires eof && newEof ==> buffer[startOfLine..end] == raw + ['\n'] && endOfLine == end
      ensures !eof ==> raw == LineSpan() + Raw()
      ensures eof && newEof ==> LineSpan() == raw + ['\n'] && Raw() == []
    {
      assert buffer[startOfLine..end] == buffer[startOfLine..endOfLine] + buffer[endOfLine..end];
    }

    /**
     * batch_readline: the next line with one trailing newline removed and,
     * outside binary mode, one carriage return before it; a NUL is written
     * after the line and its length kept in `readLength`.  `span` is the raw
     * span intern_read_line delivered.
     */
    method BatchReadline(binaryMode: bool) returns (r: Option<seq<char>>, ghost span: seq<char>)
      requires Valid()
      modifies this`bufread, this`buffer, this`startOfLine, this`endOfLine, this`end, this`eof, this`error, this`requested, this`truncated, this`readLength, file
      ensures old(eof) ==> eof && error == old(error)
      ensures r.Some? ==> Valid() && Delivers(old(Stream()), span, Stream(), truncated)
      ensures r.Some? ==> r.value == StripLine(span[..ReportedLength(span, eof)], binaryMode)
      ensures r.Some? ==> Terminated(r.value)
      ensures r.Some? && truncated ==>
        !eof && endOfLine == end && bufread < |span| + IoSize && 2 * bufread > maxSize
      ensures r.Some? ==> error == old(error) && old(bufread) <= bufread && (bufread == old(bufread) || bufread <= maxSize)
      ensures r.Some? && !eof ==> old(Raw()) == span + Raw()
      ensures r.Some? && eof && !old(eof) ==> span == old(Raw()) + ['\n'] && Raw() == []
      // end of input is reached exactly when the newline ending the span is the synthetic one
      ensures r.Some? && !old(eof) ==> (eof <==> old(Raw()) == span[..|span| - 1])
      // the span of a stream buffer fits its capacity
      ensures r.Some? && !old(eof) ==> endOfLine <= bufread && |span| <= bufread
      ensures r.None? ==> readLength == old(readLength) && truncated == old(truncated)
      ensures r.None? ==>
        (!old(eof) && error != 0) || (Valid() && eof && old(Stream()) == [] && Stream() == [] && error == old(error))
      ensures old(Stream()) == [] ==> r.None?
    {
      var length := InternReadLine();
      if length.None? {
        return None, [];
      }
      span := LineSpan();
      if !old(eof) {
        EofIffSyntheticNewline(old(Raw()), span, Raw(), eof);
      }
      var line := Terminate(length.value, binaryMode);
      r := Some(line);
    }

    /**
     * The end of batch_readline: strip the reported line of `length` bytes,
     * record the stripped length and write a NUL after it, inside the span
     * just handed out or onto the sentinel.
     */
    method Terminate(length: nat, binaryMode: bool) returns (line: seq<char>)
      requires Valid() && startOfLine < endOfLine
      requires length == ReportedLength(LineSpan(), eof)
      requires !EndsWith(LineSpan(), '\n') ==> endOfLine == end
      modifies this`buffer, this`readLength
      ensures Valid() && Stream() == old(Stream()) && Raw() == old(Raw())
      ensures line == StripLine(old(LineSpan())[..length], binaryMode)
      ensures Terminated(line)
    {
      var reported := buffer[startOfLine..endOfLine][..length];
      var outLength := StrippedLength(reported, binaryMode);
      line := reported[..outLength];
      assert startOfLine + outLength < endOfLine || startOfLine + outLength == end;
      SliceOfSlice(buffer, startOfLine, endOfLine, length, outLength);
      PutNul(line);
    }

    /**
     * `read_length = out_length; pos[out_length] = 0`: the NUL goes inside
     * the span just handed out, or onto the sentinel.
     */
    method PutNul(line: seq<char>)
      requires Valid() && startOfLine + |line| <= end
      requires startOfLine + |line| < endOfLine || startOfLine + |line| == end
      requires buffer[startOfLine..startOfLine + |line|] == line
      modifies this`buffer, this`readLength
      ensures Valid() && Stream() == old(Stream()) && Raw() == old(Raw()) && Terminated(line)
    {
      var nul := startOfLine + |line|;
      ghost var pending := buffer[endOfLine..end];
      UpdateOutside(buffer, nul, endOfLine, end, '\0');
      UpdateOutside(buffer, nul, startOfLine, nul, '\0');
      readLength := |line|;
      buffer := buffer[nul := '\0'];
      assert buffer[endOfLine..end] == pending;
    }

    /**
     * The line batch_readline returns sits at `startOfLine`, is `readLength`
     * bytes long and is followed by a NUL.
     */
    ghost predicate Terminated(line: seq<char>)
      reads this`buffer, this`startOfLine, this`readLength
    {
      readLength == |line| && startOfLine + readLength < |buffer| &&
      buffer[startOfLine..startOfLine + readLength] == line && buffer[startOfLine + readLength] == '\0'
    }

    /** In a slice that is newline-free bytes and then a newline, the only newline is the last byte. */
    static lemma FirstNewlineIsLast(b: seq<char>, lo: nat, hi: nat, pos: nat, raw: seq<char>)
      requires lo <= pos < hi <= |b| && b[lo..hi] == raw + ['\n'] && NoNewline(raw) && b[pos] == '\n'
      ensures pos == hi - 1
    {
      assert forall i :: lo <= i < hi - 1 ==> b[i] == raw[i - lo];
    }

    /** Overwriting one byte outside `[lo, hi)` leaves that slice alone. */
    static lemma UpdateOutside(b: seq<char>, i: nat, lo: nat, hi: nat, c: char)
      requires i < |b| && lo <= hi <= |b| && (i < lo || hi <= i)
      ensures |b[i := c]| == |b| && b[i := c][lo..hi] == b[lo..hi]
    {
    }

    /** Taking `k` bytes of a slice's first `n` bytes is a slice of the whole. */
    static lemma SliceOfSlice(b: seq<char>, lo: nat, hi: nat, n: nat, k: nat)
      requires lo <= hi <= |b| && k <= n <= hi - lo
      ensures b[lo..hi][..n][..k] == b[lo..lo + k]
    {
      var t := b[lo..hi][..n][..k];
      forall j | 0 <= j < k ensures t[j] == b[lo + j] {
        assert t[j] == b[lo..hi][j];
      }
    }

    /**
     * The length batch_readline keeps of a reported line: one trailing '\n'
     * counted off and then, outside binary mode, one '\r' before it.
     */
    static method StrippedLength(s: seq<char>, binaryMode: bool) returns (n: nat)
      ensures n <= |s| && s[..n] == StripLine(s, binaryMode)
      ensures n == |s| <==> !EndsWith(s, '\n')
    {
      n := |s|;
      if n > 0 && s[n - 1] == '\n' {
        // Remove '\n'.
        n := n - 1;
        if n > 0 && !binaryMode && s[n - 1] == '\r' {
          // Remove '\r'.
          n := n - 1;
        }
      }
      assert s[..|s|] == s;
    }
  }

  /**
   * The first span read from a file holding `data`, under a ceiling the file
   * cannot reach, is not truncated, and stripped it is the file's first line.
   */
  lemma FirstLineDelivered(data: seq<char>, maxSize: nat, span: seq<char>, stream: seq<char>, after: seq<char>,
                           eof: bool, truncated: bool, bufread: nat, binaryMode: bool)
    requires 2 * (|data| + 1 + IoSize) <= maxSize
    requires Delivers(WithKludge(data, false), span, stream, truncated)
    requires truncated ==> bufread < |span| + IoSize && 2 * bufread > maxSize
    requires bufread == IoSize || bufread <= maxSize
    requires !eof ==> data == span + after
    requires eof ==> span == data + ['\n']
    ensures !truncated
    ensures StripLine(span[..ReportedLength(span, eof)], binaryMode) == FileFirstLine(data, binaryMode)
  {
    assert |span| <= |data| + 1;
    FirstLineOfRaw(data, span, after, eof, binaryMode);
  }

  /**
   * batch_readline_init over a file holding `data`, then one batch_readline,
   * with a ceiling that leaves room for the first line: the line returned is
   * the file's first line (FileFirstLine), and an empty file gives none.
   */
  method ReadFirstLine(data: seq<char>, maxSize: nat, binaryMode: bool) returns (r: Option<seq<char>>)
    requires 2 * (|data| + 1 + IoSize) <= maxSize
    ensures data == [] ==> r.None?
    ensures r.Some? ==> r.value == FileFirstLine(data, binaryMode)
  {
    var file := new Source(data);
    var lb := LineBuffer.BatchReadlineInit(maxSize, file, false);
    if lb == null {
      return None;
    }
    var line: Option<seq<char>>, span := lb.BatchReadline(binaryMode);
    r := line;
    if r.Some? {
      FirstLineDelivered(data, maxSize, span, lb.Stream(), lb.Raw(), lb.eof, lb.truncated, lb.bufread, binaryMode);
    }
  }

  /**
   * The first span read from a newline-free file at least as long as IO_SIZE
   * and as the ceiling: no capacity the buffer may reach holds the file and
   * its synthetic newline, so the span is truncated, and batch_readline
   * returns it whole as a non-empty prefix of the file.
   */
  lemma OverlongLineDelivered(data: seq<char>, maxSize: nat, span: seq<char>, stream: seq<char>,
                              eof: bool, truncated: bool, bufread: nat, line: seq<char>, binaryMode: bool)
    requires NoNewline(data) && |data| >= IoSize && |data| >= maxSize
    requires Delivers(WithKludge(data, false), span, stream, truncated)
    requires |span| <= bufread && (bufread == IoSize || bufread <= maxSize)
    requires truncated ==> !eof
    requires line == StripLine(span[..ReportedLength(span, eof)], binaryMode)
    ensures truncated && line == span
    ensures 0 < |span| <= |data| && span == data[..|span|]
  {
    var before := data + ['\n'];
    assert WithKludge(data, false) == before;
    assert before[..|span|] == data[..|span|];
    assert span[|span| - 1] == data[|span| - 1];
    assert span[..|span|] == span;
  }

  /**
   * batch_readline_init over a newline-free file that neither IO_SIZE nor
   * the ceiling can hold, then one batch_readline: a line that comes back is
   * flagged truncated and is a non-empty prefix of the file, no longer than
   * the capacity allowed.
   */
  method ReadOverlongLine(data: seq<char>, maxSize: nat, binaryMode: bool) returns (r: Option<seq<char>>, truncated: bool)
    requires NoNewline(data) && |data| >= IoSize && |data| >= maxSize
    ensures r.Some? ==> truncated && 0 < |r.value| <= |data| && r.value == data[..|r.value|]
    ensures r.Some? ==> |r.value| <= IoSize || |r.value| <= maxSize
  {
    var file := new Source(data);
    var lb := LineBuffer.BatchReadlineInit(maxSize, file, false);
    if lb == null {
      return None, false;
    }
    var line: Option<seq<char>>, span := lb.BatchReadline(binaryMode);
    r, truncated := line, lb.truncated;
    if r.Some? {
      OverlongLineDelivered(data, maxSize, span, lb.Stream(), lb.eof, lb.truncated, lb.bufread, r.value, binaryMode);
    }
  }
}
