/** The scanner around the automaton in network/esmtp-1.0/lexer.c: matching in a buffer that is
    moved, grown and refilled in the middle of a token. */
module FlexScanner {
  import opened Bytes
  import opened FlexTables

  datatype Status = New | Normal | EofPending

  datatype EobAct = ContinueScan | EndOfFile | LastMatch

  datatype Result = Eof | Token(rule: nat, text: seq<byte>)

  const READ_BUF_SIZE := 8192

  /** The remembered accepting state, at distance `len` into the token, is that of the longest
      accepted prefix shorter than p. */
  ghost predicate LastGood(m: Machine, q: nat, input: seq<byte>, p: nat, state: nat, len: int)
    requires WellFormed(m) && IsState(m, q)
  {
    p >= 2 ==>
      && 0 < len < p <= |input| && state == StateAfter(m, q, input[..len]) && Accept(m, state) != 0
      && forall k :: len < k < p ==> Rule(m, q, input[..k]) == 0
  }

  /** Remembering the state after p characters if it accepts. */
  lemma Remembered(m: Machine, q: nat, input: seq<byte>, p: nat, last: nat, len: int)
    requires WellFormed(m) && IsStart(m, q) && p < |input| && LastGood(m, q, input, p, last, len)
    ensures var s := StateAfter(m, q, input[..p]);
      Accept(m, s) != 0 && p > 0 ==> LastGood(m, q, input, p + 1, s, p)
    ensures Accept(m, StateAfter(m, q, input[..p])) == 0 ==> LastGood(m, q, input, p + 1, last, len)
    ensures p == 0 ==> Accept(m, StateAfter(m, q, input[..p])) == 0
  {
    if p == 0 {
      assert input[..0] == [];
    } else if p == 1 {
      FirstAccepted(m, q, input);
    }
    hide StateAfter, WellFormed, IsStart;
  }

  /** One character of text more, a zero byte read as text included. */
  lemma AnyTurn(m: Machine, q: nat, input: seq<byte>, p: nat, last: nat, len: int)
    requires WellFormed(m) && IsStart(m, q) && p < |input| && LastGood(m, q, input, p, last, len)
    ensures var s := StateAfter(m, q, input[..p]);
      Delta(m, s, ClassOf(m, input[p])) == StateAfter(m, q, input[..p + 1])
    ensures var s := StateAfter(m, q, input[..p]);
      if Accept(m, s) != 0 then LastGood(m, q, input, p + 1, s, p) else LastGood(m, q, input, p + 1, last, len)
  {
    hide StateAfter, LastGood, Delta, ClassOf, Accept;
    Remembered(m, q, input, p, last, len);
    StateNext(m, q, input, p);
    StartPlain(m, q);
  }

  lemma TextTurn(m: Machine, q: nat, input: seq<byte>, p: nat, last: nat, len: int)
    requires WellFormed(m) && IsStart(m, q) && p < |input| && input[p] != 0 && LastGood(m, q, input, p, last, len)
    ensures var s := StateAfter(m, q, input[..p]);
      Delta(m, s, EcClass(m, input[p])) == StateAfter(m, q, input[..p + 1])
    ensures var s := StateAfter(m, q, input[..p]);
      if Accept(m, s) != 0 then LastGood(m, q, input, p + 1, s, p) else LastGood(m, q, input, p + 1, last, len)
  {
    hide StateAfter, LastGood, Delta, EcClass, ClassOf, Accept;
    AnyTurn(m, q, input, p, last, len);
    TextByte(m, input[p]);
    StartPlain(m, q);
  }

  /** A zero byte read in text. */
  lemma ZeroTurn(m: Machine, q: nat, input: seq<byte>, p: nat)
    requires WellFormed(m) && IsStart(m, q) && p <= |input|
    ensures Delta(m, StateAfter(m, q, input[..p]), EcClass(m, 0)) == m.eob
  {
    hide StateAfter, Delta, EcClass, Accept;
    StartPlain(m, q);
    NotEob(m, q, input[..p]);
    ZeroByte(m, StateAfter(m, q, input[..p]));
  }

  /** Where the loop of yy_match stands: `at` characters into the token, p of them text, the one
      after them a zero byte once `zero` is set. */
  ghost predicate Scanning(m: Machine, q: nat, input: seq<byte>, p: nat, zero: bool, state: nat, at: int,
                           last: nat, len: int)
    requires WellFormed(m) && IsStart(m, q)
  {
    && p <= |input| && IsState(m, state)
    && (!zero ==> at == p && state == StateAfter(m, q, input[..p]) && LastGood(m, q, input, p, last, len))
    && (zero && state == m.eob ==> at == p + 1)
    && (zero && state != m.eob ==> state == m.jam && last == m.eob && len == p + 1)
  }

  /** p characters were read as text; what was remembered matters if they are not accepted. */
  ghost predicate Ended(m: Machine, q: nat, input: seq<byte>, p: nat, state: nat, last: nat, len: int)
    requires WellFormed(m) && IsStart(m, q)
  {
    && p <= |input| && state == StateAfter(m, q, input[..p])
    && (Accept(m, state) == 0 ==> LastGood(m, q, input, p, last, len))
  }

  lemma StartScanning(m: Machine, q: nat, input: seq<byte>, last: nat, len: int)
    requires WellFormed(m) && IsStart(m, q)
    ensures Scanning(m, q, input, 0, false, q, 0, last, len)
  {
    assert input[..0] == [];
  }

  /** One turn on a character known to be text. */
  lemma AnyScan(m: Machine, q: nat, input: seq<byte>, p: nat, state: nat, last: nat, len: int)
    requires WellFormed(m) && IsStart(m, q) && Scanning(m, q, input, p, false, state, p, last, len) && p < |input|
    ensures IsState(m, state)
    ensures Scanning(m, q, input, p + 1, false, Delta(m, state, ClassOf(m, input[p])), p + 1,
      if Accept(m, state) != 0 then state else last, if Accept(m, state) != 0 then p else len)
    ensures Delta(m, state, ClassOf(m, input[p])) == StateAfter(m, q, input[..p + 1])
    ensures Ended(m, q, input, p, state, if Accept(m, state) != 0 then state else last,
      if Accept(m, state) != 0 then p else len)
  {
    hide StateAfter, LastGood, Delta, ClassOf, Accept, WellFormed, IsStart;
    AnyTurn(m, q, input, p, last, len);
  }

  /** One turn of that loop on byte b. */
  lemma ScanTurn(m: Machine, q: nat, input: seq<byte>, p: nat, zero: bool, state: nat, at: nat, last: nat, len: int,
                 b: byte)
    requires WellFormed(m) && IsStart(m, q) && Scanning(m, q, input, p, zero, state, at, last, len)
    requires zero ==> state == m.eob
    requires !zero && b != 0 ==> p < |input| && b == input[p]
    ensures var next := Delta(m, state, EcClass(m, b));
      var more := !zero && b != 0;
      Scanning(m, q, input, if more then p + 1 else p, !more, next, at + 1,
        if Accept(m, state) != 0 then state else last, if Accept(m, state) != 0 then at else len)
  {
    SpecialStates(m);
    hide StateAfter, LastGood, Delta, EcClass, Accept, WellFormed, IsStart, Stops;
    if zero {
      AfterMark(m, EcClass(m, b));
    } else if b == 0 {
      ZeroTurn(m, q, input, p);
    } else {
      TextTurn(m, q, input, p, last, len);
    }
  }

  /** What yy_find_action finds once nothing longer than p characters is accepted. */
  lemma ActionIsLongest(m: Machine, q: nat, input: seq<byte>, p: nat, last: nat, len: int)
    requires WellFormed(m) && IsStart(m, q) && 1 <= p <= |input|
    requires Rule(m, q, input[..p]) == 0 ==> LastGood(m, q, input, p, last, len)
    requires forall k :: p < k <= |input| ==> Rule(m, q, input[..k]) == 0
    ensures Rule(m, q, input[..p]) != 0 ==> Longest(m, q, input, p)
    ensures Rule(m, q, input[..p]) == 0 ==>
      0 < len < p && IsState(m, last) && Longest(m, q, input, len) && Accept(m, last) == Rule(m, q, input[..len])
  {
    if p == 1 {
      FirstAccepted(m, q, input);
    }
    hide StateAfter, WellFormed, IsStart;
  }

  /** After a state with no way on, nothing is accepted. */
  lemma NothingBeyond(m: Machine, q: nat, input: seq<byte>, p: nat)
    requires WellFormed(m) && IsStart(m, q) && p <= |input| && Stops(m, StateAfter(m, q, input[..p]))
    ensures forall k :: p < k <= |input| ==> Rule(m, q, input[..k]) == 0
  {
    SpecialStates(m);
    hide StateAfter, WellFormed, IsStart, Stops, Accept;
    forall k | p < k <= |input| ensures Rule(m, q, input[..k]) == 0 {
      StuckForGood(m, q, input, p, k);
    }
  }

  /** Neither is anything once the next transition is into the jam state. */
  lemma NothingAfterJam(m: Machine, q: nat, input: seq<byte>, p: nat)
    requires WellFormed(m) && IsStart(m, q) && p < |input| && StateAfter(m, q, input[..p + 1]) == m.jam
    ensures forall k :: p < k <= |input| ==> Rule(m, q, input[..k]) == 0
  {
    SpecialStates(m);
    hide StateAfter, WellFormed, IsStart, Stops, Accept;
    NothingBeyond(m, q, input, p + 1);
  }

  lemma CutText(whole: seq<byte>, bp: nat, n: nat, len: nat, file: seq<byte>)
    requires bp + len <= n <= |whole|
    ensures (whole[bp..n] + file)[..len] == whole[bp..bp + len]
    ensures (whole[bp..n] + file)[len..] == whole[bp + len..n] + file
  {
  }

  lemma ScanEnded(m: Machine, q: nat, input: seq<byte>, p: nat, state: nat, at: int, last: nat, len: int)
    requires WellFormed(m) && IsStart(m, q) && Scanning(m, q, input, p, false, state, at, last, len)
    ensures at == p && p <= |input| && state == StateAfter(m, q, input[..p])
    ensures Ended(m, q, input, p, state, last, len)
  {
    hide StateAfter, LastGood, WellFormed, IsStart;
  }

  /** What yy_find_action reads off a scan that has seen all that matters. */
  lemma ActionFound(m: Machine, q: nat, input: seq<byte>, p: nat, state: nat, last: nat, len: int)
    requires WellFormed(m) && IsStart(m, q) && 1 <= p && Ended(m, q, input, p, state, last, len)
    requires forall k :: p < k <= |input| ==> Rule(m, q, input[..k]) == 0
    ensures IsState(m, state) && (Accept(m, state) == 0 ==> IsState(m, last) && 0 < len < p)
    ensures var n := if Accept(m, state) != 0 then p else len;
      Longest(m, q, input, n) &&
      (if Accept(m, state) != 0 then Accept(m, state) else Accept(m, last)) == Rule(m, q, input[..n])
  {
    ActionIsLongest(m, q, input, p, last, len);
    hide StateAfter, LastGood, Accept, WellFormed, IsStart;
  }

  /** The first character of a token never jams. */
  lemma NulMoves(m: Machine, q: nat, input: seq<byte>, p: nat)
    requires WellFormed(m) && IsStart(m, q) && p < |input| && StateAfter(m, q, input[..p + 1]) == m.jam
    ensures p >= 1
  {
    SpecialStates(m);
    FirstAccepted(m, q, input);
  }

  /** After the loop a zero byte shows as the end-of-buffer state, and as nothing else. */
  lemma MarkShows(m: Machine, q: nat, input: seq<byte>, p: nat, zero: bool, state: nat, at: int, last: nat, len: int)
    requires WellFormed(m) && IsStart(m, q) && Scanning(m, q, input, p, zero, state, at, last, len)
    requires Stops(m, state) && (!zero ==> p >= 1)
    ensures Accept(m, state) == 0 ==> IsState(m, last) && len <= p + 1 && len > 0
    ensures var act := if Accept(m, state) != 0 then Accept(m, state) else Accept(m, last);
      act == m.endOfBuffer <==> zero
    ensures zero ==> Accept(m, state) == 0 && len == p + 1
  {
    SpecialStates(m);
    OnlyMarkEnds(m, state);
    OnlyMarkEnds(m, m.eob);
    if !zero {
      StartPlain(m, q);
      NotEob(m, q, input[..p]);
      NothingBeyond(m, q, input, p);
      ScanEnded(m, q, input, p, state, at, last, len);
      ActionFound(m, q, input, p, state, last, len);
      if Accept(m, state) == 0 {
        NotEob(m, q, input[..len]);
        OnlyMarkEnds(m, last);
      }
    }
  }

  class Scanner {
    const m: Machine
    /** yy_ch_buf, yy_buf_size and yy_fill_buffer of the current buffer, which the scanner owns. */
    var chBuf: array<byte>
    var bufSize: nat
    const fill: bool
    var status: Status
    var nChars: nat
    var cBufP: nat
    var textPtr: nat
    var hold: byte
    var lastState: nat
    var lastPos: nat
    /** What YY_INPUT has not delivered yet. */
    var file: seq<byte>

    /** Two end-of-buffer characters follow the data. */
    ghost predicate Marked()
      reads this`chBuf, this`bufSize, this`nChars, this`status, this`file, chBuf
    {
      && bufSize > 0 && chBuf.Length == bufSize + 2 && nChars <= bufSize
      && chBuf[nChars] == 0 && chBuf[nChars + 1] == 0
      && (status == EofPending || !fill ==> file == [])
    }

    /** The buffer from `from` on followed by the rest of the file. */
    ghost function Ahead(from: nat): seq<byte>
      requires from <= nChars <= chBuf.Length
      reads this`chBuf, this`nChars, this`file, chBuf
    {
      chBuf[from..nChars] + file
    }

    /** yy_create_buffer on a file of the given contents, as yylex does at its first call. */
    constructor (m: Machine, size: nat, contents: seq<byte>, fill: bool)
      requires size > 0 && (!fill ==> contents == [])
      ensures this.m == m && this.fill == fill && Ready() && Rest() == contents && fresh(chBuf)
    {
      this.m, this.fill := m, fill;
      bufSize, status, nChars, cBufP, textPtr, hold := size, New, 0, 0, 0, 0;
      lastState, lastPos, file := 0, 0, contents;
      chBuf := new byte[size + 2](_ => 0);
    }

    /** yyrestart on the same file: yy_init_buffer, yy_flush_buffer and yy_load_buffer_state. */
    method Restart()
      requires chBuf.Length >= 2
      modifies this`nChars, this`cBufP, this`textPtr, this`hold, this`status, chBuf
      ensures nChars == 0 && cBufP == 0 && textPtr == 0 && hold == 0 && status == New
      ensures chBuf[0] == chBuf[1] == 0
    {
      nChars := 0;
      chBuf[0] := 0;
      chBuf[1] := 0;
      status := New;
      textPtr, cBufP := 0, 0;
      hold := chBuf[cBufP];
    }

    /** Moves the kept text to the front of the buffer. */
    method MoveDown(n: nat)
      requires textPtr + n <= chBuf.Length
      modifies chBuf
      ensures chBuf[..n] == old(chBuf[textPtr..textPtr + n])
    {
      var i := 0;
      while i < n
        invariant 0 <= i <= n
        invariant chBuf[..i] == old(chBuf[textPtr..textPtr + i])
        invariant chBuf[textPtr + i..] == old(chBuf[textPtr + i..])
      {
        assert chBuf[textPtr + i] == chBuf[textPtr + i..][0];
        assert old(chBuf[textPtr + i]) == old(chBuf[textPtr + i..])[0];
        chBuf[i] := chBuf[textPtr + i];
        assert chBuf[textPtr + i + 1..] == old(chBuf[textPtr + i..])[1..];
        i := i + 1;
      }
    }

    /** Doubles the buffer until one character fits after the first n. */
    method Grow(n: nat)
      requires 0 < bufSize && n <= bufSize && chBuf.Length == bufSize + 2
      modifies this`chBuf, this`bufSize
      ensures chBuf.Length == bufSize + 2 && n + 1 < bufSize
      ensures chBuf == old(chBuf) || fresh(chBuf)
      ensures chBuf[..n] == old(chBuf[..n])
    {
      while bufSize <= n + 1
        invariant 0 < bufSize && n <= bufSize && chBuf.Length == bufSize + 2
        invariant chBuf == old(chBuf) || fresh(chBuf)
        invariant chBuf[..n] == old(chBuf[..n])
        decreases n + 2 - bufSize
      {
        var bigger := new byte[bufSize * 2 + 2];
        forall i | 0 <= i < chBuf.Length {
          bigger[i] := chBuf[i];
        }
        assert bigger[..n] == chBuf[..n];
        chBuf := bigger;
        bufSize := bufSize * 2;
      }
    }

    /** YY_INPUT at position n: at least one character unless the file has ended. */
    method Input(n: nat) returns (got: nat)
      requires n + 1 < bufSize && chBuf.Length == bufSize + 2
      modifies this`file, chBuf
      ensures n + got <= bufSize && got <= old(|file|)
      ensures got == 0 <==> old(file) == []
      ensures file == old(file)[got..]
      ensures chBuf[..n + got] == old(chBuf[..n]) + old(file)[..got]
    {
      var room := bufSize - n - 1;
      if room > READ_BUF_SIZE {
        room := READ_BUF_SIZE;
      }
      if file == [] {
        got := 0;
      } else {
        got :| 1 <= got <= room && got <= |file|;
      }
      Store(chBuf, n, file[..got]);
      file := file[got..];
    }

    /** The part of yy_get_next_buffer that moves the kept text down and reads behind it. */
    method MoveAndRead() returns (got: nat)
      requires Marked() && textPtr <= nChars && cBufP == nChars + 1
      modifies this`chBuf, this`bufSize, this`file, chBuf
      ensures bufSize > 0 && chBuf.Length == bufSize + 2 && (chBuf == old(chBuf) || fresh(chBuf))
      ensures got <= |old(file)| && nChars - textPtr + got <= bufSize
      ensures got == 0 <==> old(file) == []
      ensures file == old(file)[got..]
      ensures chBuf[..nChars - textPtr + got] == old(chBuf[textPtr..nChars]) + old(file)[..got]
    {
      var move := cBufP - textPtr - 1;
      ghost var kept := chBuf[textPtr..nChars];
      MoveDown(move);
      assert chBuf[..move] == kept;
      if status == EofPending {
        got := 0;
        assert chBuf[..move + 0] == kept + old(file)[..0];
      } else {
        Grow(move);
        assert chBuf[..move] == kept;
        got := Input(move);
      }
    }

    /** The end of yy_get_next_buffer: two end-of-buffer characters behind n characters of text. */
    method Mark(n: nat)
      requires n + 2 <= chBuf.Length
      modifies this`nChars, this`textPtr, chBuf
      ensures nChars == n && textPtr == 0
      ensures chBuf[nChars] == chBuf[nChars + 1] == 0 && chBuf[..n] == old(chBuf[..n])
    {
      nChars := n;
      chBuf[nChars] := 0;
      chBuf[nChars + 1] := 0;
      textPtr := 0;
    }

    /** yy_get_next_buffer on a buffer that is filled from a file. */
    method Refill() returns (act: EobAct)
      requires fill
      requires Marked() && textPtr <= nChars && cBufP == nChars + 1
      modifies this, chBuf
      ensures Marked() && textPtr <= nChars && (chBuf == old(chBuf) || fresh(chBuf))
      ensures Ahead(textPtr) == old(Ahead(textPtr))
      ensures nChars - textPtr >= old(nChars - textPtr)
      ensures act == ContinueScan <==> old(file) != []
      ensures act == EndOfFile <==> old(Ahead(textPtr)) == []
      ensures act == ContinueScan ==> |file| < |old(file)|
      ensures act != ContinueScan ==> file == [] && nChars - textPtr == old(nChars - textPtr)
      ensures act == EndOfFile ==> hold == 0
    {
      var move := cBufP - textPtr - 1;
      ghost var kept, file0 := chBuf[textPtr..nChars], file;
      var got := MoveAndRead();
      ghost var text := kept + file0[..got];
      if got == 0 {
        if move == 0 {
          act := EndOfFile;
          Restart();
        } else {
          act := LastMatch;
          status := EofPending;
        }
      } else {
        act := ContinueScan;
      }
      assert chBuf[..got + move] == text;
      Mark(got + move);
      assert Ahead(0) == text + file;
      assert file0 == file0[..got] + file;
    }

    /** yy_get_next_buffer, called with yy_c_buf_p just past the first end-of-buffer character. It
        loses, repeats and reorders nothing: kept text, buffer and file still spell the input. */
    method GetNextBuffer() returns (act: EobAct)
      requires Marked() && textPtr <= nChars && cBufP == nChars + 1
      modifies this, chBuf
      ensures Marked() && textPtr <= nChars && (chBuf == old(chBuf) || fresh(chBuf))
      ensures Ahead(textPtr) == old(Ahead(textPtr))
      ensures nChars - textPtr >= old(nChars - textPtr)
      ensures act == ContinueScan <==> old(file) != []
      ensures act == EndOfFile <==> old(Ahead(textPtr)) == []
      ensures act == ContinueScan ==> |file| < |old(file)|
      ensures act != ContinueScan ==> file == [] && nChars - textPtr == old(nChars - textPtr)
      ensures act == EndOfFile ==> hold == (if fill then 0 else old(hold))
    {
      if !fill {
        return if cBufP - textPtr == 1 then EndOfFile else LastMatch;
      }
      act := Refill();
    }

    // ----- matching -----

    /** The text in the buffer from bp on is the beginning of the input. */
    ghost predicate Reads(input: seq<byte>, bp: nat)
      reads this`chBuf, this`bufSize, this`nChars, this`status, this`file, chBuf
    {
      Marked() && bp <= nChars && Ahead(bp) == input
    }

    lemma ReadsAt(input: seq<byte>, bp: nat, p: nat)
      requires Reads(input, bp) && p < nChars - bp
      ensures p < |input| && chBuf[bp + p] == input[p]
    {
      assert Ahead(bp)[p] == chBuf[bp..nChars][p];
    }

    /** The transition on class c, remembering an accepting state it leaves. */
    method Turn(cp: nat, state: nat, c: nat) returns (next: nat)
      requires Compressed(m) && IsState(m, state) && c < Classes(m)
      modifies this`lastState, this`lastPos
      ensures next == Delta(m, state, c)
      ensures lastState == if Accept(m, state) != 0 then state else old(lastState)
      ensures lastPos == if Accept(m, state) != 0 then cp else old(lastPos)
    {
      if Accept(m, state) != 0 {
        lastState := state;
        lastPos := cp;
      }
      next := Lookup(m, state, c);
    }

    /** The loop of yy_match stands at cp in the token that starts at bp. */
    ghost predicate At(q: nat, input: seq<byte>, bp: nat, p: nat, zero: bool, state: nat, cp: nat)
      requires WellFormed(m) && IsStart(m, q)
      reads this`chBuf, this`bufSize, this`nChars, this`status, this`file, this`lastState, this`lastPos, chBuf
    {
      && Reads(input, bp) && p <= nChars - bp && cp <= nChars + 2
      && Scanning(m, q, input, p, zero, state, cp - bp, lastState, lastPos - bp)
      && (zero ==> chBuf[bp + p] == 0)
    }

    lemma AtByte(q: nat, input: seq<byte>, bp: nat, p: nat, zero: bool, state: nat, cp: nat)
      requires WellFormed(m) && IsStart(m, q) && At(q, input, bp, p, zero, state, cp)
      requires zero ==> !Stops(m, state)
      ensures cp < chBuf.Length && cp <= nChars + 1
      ensures !zero && chBuf[cp] != 0 ==> p < nChars - bp && p < |input| && chBuf[cp] == input[p]
      ensures zero ==> state == m.eob
      ensures !zero ==> cp == bp + p
    {
      ScanningState(q, input, p, state, cp - bp, lastState, lastPos - bp, zero);
      hide WellFormed, IsStart, Scanning, Stops;
      if !zero && p < nChars - bp {
        ReadsAt(input, bp, p);
      }
    }

    lemma TurnFacts(cp: nat, state: nat, q: nat, input: seq<byte>, bp: nat, p: nat, zero: bool)
      requires WellFormed(m) && IsStart(m, q) && At(q, input, bp, p, zero, state, cp)
      requires zero ==> !Stops(m, state)
      ensures Compressed(m) && IsState(m, state) && cp < chBuf.Length && cp <= nChars + 1
      ensures var b := chBuf[cp];
        var more := !zero && b != 0;
        var p1 := if more then p + 1 else p;
        p1 <= nChars - bp && (!more ==> chBuf[bp + p1] == 0) &&
        Scanning(m, q, input, p1, !more, Delta(m, state, EcClass(m, b)), cp + 1 - bp,
          if Accept(m, state) != 0 then state else lastState, (if Accept(m, state) != 0 then cp else lastPos) - bp)
    {
      hide WellFormed, Compressed, IsStart, Scanning, Stops, IsState, Accept, EcClass, Delta, Reads;
      AtByte(q, input, bp, p, zero, state, cp);
      ScanningState(q, input, p, state, cp - bp, lastState, lastPos - bp, zero);
      ScanTurn(m, q, input, p, zero, state, cp - bp, lastState, lastPos - bp, chBuf[cp]);
    }

    method TurnAt(cp: nat, state: nat, ghost q: nat, ghost input: seq<byte>, ghost bp: nat, ghost p: nat,
                  ghost zero: bool)
      returns (next: nat, ghost p1: nat, ghost zero1: bool)
      requires WellFormed(m) && IsStart(m, q) && At(q, input, bp, p, zero, state, cp)
      requires zero ==> !Stops(m, state)
      modifies this`lastState, this`lastPos
      ensures At(q, input, bp, p1, zero1, next, cp + 1) && p1 >= p && (!zero1 ==> p1 >= 1)
      ensures cp <= nChars + 1
    {
      hide WellFormed, Compressed, IsStart, Scanning, Stops, IsState, Accept, EcClass, Delta, Reads;
      TurnFacts(cp, state, q, input, bp, p, zero);
      ghost var b := chBuf[cp];
      next := Turn(cp, state, EcClass(m, chBuf[cp]));
      p1 := if !zero && b != 0 then p + 1 else p;
      zero1 := zero || b == 0;
    }

    /** yy_match: runs until the states have no way on. Either all characters read were text, or a
        zero byte was met and the end-of-buffer state is the last that accepted. */
    method Match(cp0: nat, state0: nat, ghost q: nat, ghost input: seq<byte>, ghost bp: nat, ghost p0: nat)
      returns (cp: nat, state: nat, ghost p: nat, ghost zero: bool)
      requires WellFormed(m) && IsStart(m, q) && At(q, input, bp, p0, false, state0, cp0)
      modifies this`lastState, this`lastPos
      ensures At(q, input, bp, p, zero, state, cp) && IsState(m, state) && Stops(m, state)
      ensures p >= p0 && (!zero ==> p >= 1)
    {
      assert Compressed(m);
      hide WellFormed, Compressed, IsStart, Stops, IsState, At;
      cp, state, p, zero := cp0, state0, p0, false;
      state, p, zero := TurnAt(cp, state, q, input, bp, p, zero);
      cp := cp + 1;
      AtState(q, input, bp, p, zero, state, cp);
      while !Stops(m, state)
        invariant At(q, input, bp, p, zero, state, cp) && p >= p0 && (!zero ==> p >= 1) && IsState(m, state)
        decreases nChars + 3 - cp
      {
        state, p, zero := TurnAt(cp, state, q, input, bp, p, zero);
        cp := cp + 1;
        AtState(q, input, bp, p, zero, state, cp);
      }
    }

    lemma AtPlain(q: nat, input: seq<byte>, bp: nat, p: nat, state: nat, cp: nat)
      requires WellFormed(m) && IsStart(m, q) && At(q, input, bp, p, false, state, cp)
      ensures cp == bp + p && cp <= nChars && nChars + 2 <= chBuf.Length
      ensures Compressed(m) && (if chBuf[cp] != 0 then EcClass(m, chBuf[cp]) else 1) == ClassOf(m, chBuf[cp])
    {
    }

    lemma AtState(q: nat, input: seq<byte>, bp: nat, p: nat, zero: bool, state: nat, cp: nat)
      requires WellFormed(m) && IsStart(m, q) && At(q, input, bp, p, zero, state, cp)
      ensures IsState(m, state)
    {
    }

    lemma ScanningState(q: nat, input: seq<byte>, p: nat, state: nat, at: int, last: nat, len: int, zero: bool)
      requires WellFormed(m) && IsStart(m, q) && Scanning(m, q, input, p, zero, state, at, last, len)
      ensures Compressed(m) && IsState(m, state) && p <= |input|
      ensures !zero ==> at == p
      ensures zero && !Stops(m, state) ==> state == m.eob && at == p + 1
    {
      SpecialStates(m);
    }

    /** yy_get_previous_state: re-reads the text before yy_c_buf_p and arrives where the scanner was. */
    method GetPreviousState(q: nat, ghost input: seq<byte>) returns (state: nat)
      requires WellFormed(m) && IsStart(m, q) && Reads(input, textPtr) && textPtr <= cBufP <= nChars
      modifies this`lastState, this`lastPos
      ensures At(q, input, textPtr, cBufP - textPtr, false, state, cBufP)
    {
      state := q;
      var cp := textPtr;
      ghost var p := 0;
      StartScanning(m, q, input, lastState, lastPos - textPtr);
      assert At(q, input, textPtr, p, false, state, cp);
      hide WellFormed, IsStart, At, Reads, Ended, StateAfter;
      while cp < cBufP
        invariant textPtr <= cp <= cBufP && p == cp - textPtr
        invariant At(q, input, textPtr, p, false, state, cp)
      {
        AtPlain(q, input, textPtr, p, state, cp);
        state := TextTurnAt(cp, state, if chBuf[cp] != 0 then EcClass(m, chBuf[cp]) else 1, q, input, textPtr, p);
        cp, p := cp + 1, p + 1;
      }
    }

    lemma TextFacts(cp: nat, state: nat, c: nat, q: nat, input: seq<byte>, bp: nat, p: nat)
      requires WellFormed(m) && IsStart(m, q) && At(q, input, bp, p, false, state, cp) && p < nChars - bp
      requires cp < chBuf.Length && c == ClassOf(m, chBuf[cp])
      ensures Compressed(m) && IsState(m, state) && c < Classes(m) && cp == bp + p && p < |input|
      ensures Delta(m, state, c) == StateAfter(m, q, input[..p + 1])
      ensures var last := if Accept(m, state) != 0 then state else lastState;
        var len := (if Accept(m, state) != 0 then cp else lastPos) - bp;
        Scanning(m, q, input, p + 1, false, Delta(m, state, c), p + 1, last, len) &&
        Ended(m, q, input, p, state, last, len)
    {
      hide WellFormed, Compressed, IsStart, Scanning, IsState, Accept, Delta, ClassOf, Reads, StateAfter, Ended, Stops;
      ReadsAt(input, bp, p);
      ScanningState(q, input, p, state, cp - bp, lastState, lastPos - bp, false);
      ScanEnded(m, q, input, p, state, cp - bp, lastState, lastPos - bp);
      AnyScan(m, q, input, p, state, lastState, lastPos - bp);
    }

    /** One character of text at cp, on its class c. */
    method TextTurnAt(cp: nat, state: nat, c: nat, ghost q: nat, ghost input: seq<byte>, ghost bp: nat, ghost p: nat)
      returns (next: nat)
      requires WellFormed(m) && IsStart(m, q) && At(q, input, bp, p, false, state, cp) && p < nChars - bp
      requires cp < chBuf.Length && c == ClassOf(m, chBuf[cp])
      modifies this`lastState, this`lastPos
      ensures At(q, input, bp, p + 1, false, next, cp + 1)
      ensures cp == bp + p && p < |input| && next == StateAfter(m, q, input[..p + 1])
      ensures Ended(m, q, input, p, state, lastState, lastPos - bp)
    {
      hide WellFormed, Compressed, IsStart, Scanning, IsState, Accept, Delta, ClassOf, Reads, StateAfter, Ended;
      TextFacts(cp, state, c, q, input, bp, p);
      next := Turn(cp, state, c);
    }

    // ----- tokens -----

    /** Between tokens the character at yy_c_buf_p is in yy_hold_char. */
    ghost function Restored(): seq<byte>
      requires cBufP < chBuf.Length
      reads this`chBuf, this`bufSize, this`nChars, this`status, this`file, this`cBufP, this`hold, chBuf
    {
      chBuf[..][cBufP := hold]
    }

    ghost predicate Ready()
      reads this`chBuf, this`bufSize, this`nChars, this`status, this`file, this`cBufP, this`hold, chBuf
    {
      && bufSize > 0 && chBuf.Length == bufSize + 2 && cBufP <= nChars <= bufSize
      && Restored()[nChars] == 0 && Restored()[nChars + 1] == 0
      && (status == EofPending || !fill ==> file == [])
    }

    /** The input that no token has used yet. */
    ghost function Rest(): seq<byte>
      requires Ready()
      reads this`chBuf, this`bufSize, this`nChars, this`status, this`file, this`cBufP, this`hold, chBuf
    {
      Restored()[cBufP..nChars] + file
    }

    /** What the next token must be: the end of the input, or its longest accepted prefix, which
        yytext then holds, with a NUL behind it. */
    ghost predicate Good(q: nat, input: seq<byte>, r: Result)
      requires WellFormed(m) && IsState(m, q)
      reads this`chBuf, this`bufSize, this`nChars, this`status, this`file, this`cBufP, this`textPtr, this`hold, chBuf
    {
      && Ready()
      && match r
         case Eof => input == [] && Rest() == []
         case Token(rule, text) =>
           && textPtr + |text| == cBufP && chBuf[textPtr..cBufP] == text && chBuf[cBufP] == 0
           && Longest(m, q, input, |text|) && text == input[..|text|]
           && rule == Rule(m, q, text) && Rest() == input[|text|..]
    }

    /** The text in the buffer once the character in yy_hold_char is back. */
    ghost predicate MarkCut(input: seq<byte>, p: nat)
      reads this`chBuf, this`bufSize, this`nChars, this`status, this`file, this`cBufP, this`textPtr, this`hold, chBuf
    {
      && bufSize > 0 && chBuf.Length == bufSize + 2 && nChars <= bufSize && cBufP < chBuf.Length
      && (status == EofPending || !fill ==> file == [])
      && Restored()[nChars] == 0 == Restored()[nChars + 1]
      && textPtr + p <= nChars && cBufP == textPtr + p + 1
      && Restored()[textPtr + p] == 0 && Restored()[textPtr..nChars] + file == input
    }

    /** The buffer was `whole` before FindAction cut it. */
    ghost predicate WasWhole(whole: seq<byte>)
      reads this`chBuf, this`bufSize, this`nChars, this`status, this`file, this`cBufP, this`hold, chBuf
    {
      && |whole| == chBuf.Length == bufSize + 2 && nChars <= bufSize && bufSize > 0 && cBufP < |whole|
      && chBuf[..] == whole[cBufP := 0] && hold == whole[cBufP]
      && whole[nChars] == 0 == whole[nChars + 1] && (status == EofPending || !fill ==> file == [])
    }

    lemma RestoredAs(whole: seq<byte>)
      requires |whole| == chBuf.Length == bufSize + 2 && cBufP <= nChars <= bufSize && bufSize > 0
      requires chBuf[..] == whole[cBufP := 0] && hold == whole[cBufP]
      requires whole[nChars] == 0 == whole[nChars + 1] && (status == EofPending || !fill ==> file == [])
      ensures Ready() && Rest() == whole[cBufP..nChars] + file
    {
      assert Restored() == whole;
    }

    lemma MarkCutAs(whole: seq<byte>, input: seq<byte>, p: nat)
      requires WasWhole(whole) && textPtr + p <= nChars && cBufP == textPtr + p + 1 && whole[textPtr + p] == 0
      requires whole[textPtr..nChars] + file == input
      ensures MarkCut(input, p)
    {
      assert Restored() == whole;
    }

    lemma GoodAs(whole: seq<byte>, q: nat, input: seq<byte>, rule: nat, len: nat)
      requires WellFormed(m) && IsState(m, q) && WasWhole(whole) && textPtr + len == cBufP <= nChars
      requires Longest(m, q, input, len) && rule == Rule(m, q, input[..len])
      requires input[..len] == whole[textPtr..cBufP] && input[len..] == whole[cBufP..nChars] + file
      ensures cBufP < chBuf.Length && chBuf[textPtr..cBufP] == input[..len] && Good(q, input, Token(rule, input[..len]))
    {
      hide WellFormed, IsState, Longest, Rule;
      RestoredAs(whole);
      assert chBuf[textPtr..cBufP] == whole[textPtr..cBufP];
    }

    /** yy_find_action and YY_DO_BEFORE_ACTION: backs up if the state does not accept, then ends
        yytext with a NUL and keeps the character that was there. */
    method FindAction(bp: nat, cp0: nat, state: nat) returns (act: nat, cp: nat)
      requires Marked() && Compressed(m) && IsState(m, state) && (Accept(m, state) != 0 ==> cp0 < chBuf.Length)
      requires Accept(m, state) == 0 ==> IsState(m, lastState) && lastPos < chBuf.Length
      modifies this`textPtr, this`hold, this`cBufP, chBuf
      ensures act == (if Accept(m, state) != 0 then Accept(m, state) else Accept(m, lastState))
      ensures cp == (if Accept(m, state) != 0 then cp0 else lastPos)
      ensures textPtr == bp && cBufP == cp && WasWhole(old(chBuf[..]))
    {
      act, cp := Accept(m, state), cp0;
      if act == 0 {
        cp := lastPos;
        act := Accept(m, lastState);
      }
      textPtr := bp;
      hold := chBuf[cp];
      chBuf[cp] := 0;
      cBufP := cp;
    }

    /** Which token yy_find_action will cut off, and what stays behind it. */
    lemma Plan(bp: nat, cp0: nat, state: nat, q: nat, input: seq<byte>, p: nat) returns (len: nat)
      requires WellFormed(m) && IsStart(m, q) && Reads(input, bp) && 1 <= p <= nChars - bp && cp0 == bp + p
      requires Ended(m, q, input, p, state, lastState, lastPos - bp)
      requires forall k :: p < k <= |input| ==> Rule(m, q, input[..k]) == 0
      ensures Compressed(m) && IsState(m, state) && (Accept(m, state) == 0 ==> IsState(m, lastState))
      ensures bp + len == if Accept(m, state) != 0 then cp0 else lastPos
      ensures 0 < len <= p && bp + len <= nChars < chBuf.Length && Longest(m, q, input, len)
      ensures Rule(m, q, input[..len]) == if Accept(m, state) != 0 then Accept(m, state) else Accept(m, lastState)
      ensures input[..len] == chBuf[..][bp..bp + len] && input[len..] == chBuf[..][bp + len..nChars] + file
    {
      ActionFound(m, q, input, p, state, lastState, lastPos - bp);
      len := if Accept(m, state) != 0 then p else lastPos - bp;
      assert chBuf[bp..nChars] == chBuf[..][bp..nChars];
      CutText(chBuf[..], bp, nChars, len, file);
    }

    /** Ends a token when nothing longer than the p characters read is accepted. */
    method Emit(bp: nat, cp0: nat, state: nat, ghost q: nat, ghost input: seq<byte>, ghost p: nat)
      returns (r: Result)
      requires WellFormed(m) && IsStart(m, q) && Reads(input, bp) && 1 <= p <= nChars - bp && cp0 == bp + p
      requires Ended(m, q, input, p, state, lastState, lastPos - bp)
      requires forall k :: p < k <= |input| ==> Rule(m, q, input[..k]) == 0
      modifies this`textPtr, this`hold, this`cBufP, chBuf
      ensures IsState(m, q) && Good(q, input, r)
    {
      ghost var whole := chBuf[..];
      ghost var len := Plan(bp, cp0, state, q, input, p);
      assert Marked();
      StartPlain(m, q);
      hide Longest, Rule, Ended, WellFormed, Compressed, IsStart, IsState, Accept, StateAfter;
      hide Reads, WasWhole, Good, Marked;
      var act, cp := FindAction(bp, cp0, state);
      GoodAs(whole, q, input, act, len);
      r := Token(act, chBuf[bp..cp]);
    }

    /** yy_try_NUL_trans: 0 if the NUL at yy_c_buf_p jams. */
    method TryNulTrans(state: nat, ghost q: nat, ghost input: seq<byte>, ghost p: nat) returns (next: nat)
      requires WellFormed(m) && IsStart(m, q) && At(q, input, textPtr, p, false, state, cBufP)
      requires p < nChars - textPtr && chBuf[cBufP] == 0
      modifies this`lastState, this`lastPos
      ensures next != 0 ==> At(q, input, textPtr, p + 1, false, next, cBufP + 1)
      ensures next == 0 ==> Ended(m, q, input, p, state, lastState, lastPos - textPtr) && cBufP == textPtr + p
      ensures next == 0 ==> p < |input| && StateAfter(m, q, input[..p + 1]) == m.jam
    {
      AtPlain(q, input, textPtr, p, state, cBufP);
      SpecialStates(m);
      hide WellFormed, Compressed, IsStart, At, ClassOf, StateAfter, Ended;
      next := TextTurnAt(cBufP, state, 1, q, input, textPtr, p);
      if next == m.jam {
        next := 0;
      }
    }

    /** A NUL of the text was taken for the end of the buffer. */
    method RealNul(ghost p: nat, q: nat, ghost input: seq<byte>)
      returns (done: bool, r: Result, cp: nat, state: nat)
      requires WellFormed(m) && IsStart(m, q) && Reads(input, textPtr) && p < nChars - textPtr
      requires cBufP == textPtr + p && chBuf[cBufP] == 0
      modifies this`lastState, this`lastPos, this`textPtr, this`hold, this`cBufP, chBuf
      ensures done ==> Good(q, input, r)
      ensures !done ==> At(q, input, textPtr, p + 1, false, state, cp) && textPtr == old(textPtr)
    {
      hide WellFormed, IsStart, IsState, At, Ended, StateAfter, Reads, Good;
      state := GetPreviousState(q, input);
      StartPlain(m, q);
      assert At(q, input, textPtr, p, false, state, cBufP);
      var next := TryNulTrans(state, q, input, p);
      if next != 0 {
        cBufP := cBufP + 1;
        done, r, cp, state := false, Eof, cBufP, next;
      } else {
        NothingAfterJam(m, q, input, p);
        NulMoves(m, q, input, p);
        done, cp := true, cBufP;
        r := Emit(textPtr, cBufP, state, q, input, p);
      }
    }

    /** yy_get_next_buffer as the rest of the scanner sees it. */
    method NextRead(ghost p: nat, ghost input: seq<byte>) returns (act: EobAct)
      requires Reads(input, textPtr) && cBufP == nChars + 1 && p == nChars - textPtr && hold == 0
      modifies this, chBuf
      ensures chBuf == old(chBuf) || fresh(chBuf)
      ensures Reads(input, textPtr) && p <= nChars - textPtr && textPtr <= nChars
      ensures act == ContinueScan ==> |file| < |old(file)|
      ensures act == LastMatch ==> p == |input| >= 1 && p == nChars - textPtr
      ensures act == EndOfFile ==> input == [] && hold == 0
    {
      assert Marked() && Ahead(textPtr) == input;
      act := GetNextBuffer();
      assert act != ContinueScan ==> Ahead(textPtr) == chBuf[textPtr..nChars];
    }

    /** The real end of the buffer was reached: refill and go on, or finish the last text. */
    method BufferEnd(ghost p: nat, q: nat, ghost input: seq<byte>)
      returns (done: bool, r: Result, cp: nat, state: nat)
      requires WellFormed(m) && IsStart(m, q) && Reads(input, textPtr)
      requires cBufP == nChars + 1 && p == nChars - textPtr && hold == 0
      modifies this, chBuf
      ensures chBuf == old(chBuf) || fresh(chBuf)
      ensures done ==> Good(q, input, r)
      ensures !done ==> At(q, input, textPtr, p, false, state, cp) && |file| < |old(file)|
    {
      StartPlain(m, q);
      var amount := cBufP - textPtr - 1;
      hide WellFormed, IsStart, IsState, At, Good, Reads, Marked, Ahead;
      var act := NextRead(p, input);
      match act {
        case EndOfFile =>
          EmitEof(q);
          done, r, cp, state := true, Eof, cBufP, q;
        case ContinueScan =>
          state := Resume(textPtr + amount, q, input, p);
          done, r, cp := false, Eof, cBufP;
        case LastMatch =>
          state := Resume(nChars, q, input, p);
          done, cp := true, cBufP;
          r := EmitLast(cp, state, q, input, p);
      }
    }

    /** Back to the first n characters of the buffer, in the state they lead to. */
    method Resume(n: nat, q: nat, ghost input: seq<byte>, ghost p: nat) returns (state: nat)
      requires WellFormed(m) && IsStart(m, q) && Reads(input, textPtr) && n == textPtr + p <= nChars
      modifies this`cBufP, this`lastState, this`lastPos
      ensures cBufP == n && At(q, input, textPtr, p, false, state, cBufP)
    {
      hide WellFormed, IsStart, At, Reads;
      cBufP := n;
      state := GetPreviousState(q, input);
    }

    method EmitEof(ghost q: nat)
      requires WellFormed(m) && IsState(m, q) && Reads([], textPtr) && hold == 0
      modifies this`cBufP
      ensures Good(q, [], Eof)
    {
      assert chBuf[textPtr..nChars] + file == [];
      cBufP := textPtr;
    }

    method EmitLast(cp: nat, state: nat, q: nat, ghost input: seq<byte>, ghost p: nat) returns (r: Result)
      requires WellFormed(m) && IsStart(m, q) && At(q, input, textPtr, p, false, state, cp)
      requires p == |input| >= 1
      modifies this`textPtr, this`hold, this`cBufP, chBuf
      ensures IsState(m, q) && Good(q, input, r)
    {
      StartPlain(m, q);
      ScanEnded(m, q, input, p, state, cp - textPtr, lastState, lastPos - textPtr);
      hide WellFormed, IsStart, Scanning, Ended, StateAfter, Reads;
      r := Emit(textPtr, cp, state, q, input, p);
    }

    /** *yy_cp = yy_hold_char, and a new buffer counts as a normal one. */
    method Uncut(ghost input: seq<byte>, ghost p: nat)
      requires MarkCut(input, p)
      modifies this`status, chBuf
      ensures Reads(input, textPtr) && chBuf[textPtr + p] == 0
      ensures cBufP == nChars + 1 ==> hold == 0
    {
      ghost var whole := Restored();
      chBuf[cBufP] := hold;
      assert chBuf[..] == whole;
      assert chBuf[textPtr..nChars] == whole[textPtr..nChars];
      if status == New {
        status := Normal;
      }
    }

    /** case YY_END_OF_BUFFER, entered with yytext and the zero byte cut off as if it were a token. */
    method EndOfBuffer(ghost p: nat, q: nat, ghost input: seq<byte>)
      returns (done: bool, r: Result, cp: nat, state: nat, ghost p1: nat)
      requires WellFormed(m) && IsStart(m, q) && cBufP < chBuf.Length && cBufP == textPtr + p + 1
      requires MarkCut(input, p)
      modifies this, chBuf
      ensures chBuf == old(chBuf) || fresh(chBuf)
      ensures done ==> Good(q, input, r)
      ensures !done ==> At(q, input, textPtr, p1, false, state, cp)
      ensures !done ==> |file| < |old(file)| || (file == old(file) && p1 == p + 1)
    {
      StartPlain(m, q);
      var amount := cBufP - textPtr - 1;
      Uncut(input, p);
      p1 := p;
      hide WellFormed, IsStart, IsState, At, Good, Reads;
      if cBufP <= nChars {
        cBufP := textPtr + amount;
        done, r, cp, state := RealNul(p, q, input);
        p1 := p + 1;
      } else {
        done, r, cp, state := BufferEnd(p, q, input);
      }
    }

    lemma PlanAfterMatch(bp: nat, cp: nat, state: nat, q: nat, input: seq<byte>, p: nat) returns (len: nat)
      requires WellFormed(m) && IsStart(m, q) && At(q, input, bp, p, false, state, cp) && p >= 1
      requires IsState(m, state) && Stops(m, state)
      ensures Compressed(m) && IsState(m, state) && (Accept(m, state) == 0 ==> IsState(m, lastState))
      ensures bp + len == if Accept(m, state) != 0 then cp else lastPos
      ensures bp + len <= nChars && Longest(m, q, input, len)
      ensures Rule(m, q, input[..len]) == if Accept(m, state) != 0 then Accept(m, state) else Accept(m, lastState)
      ensures input[..len] == chBuf[..][bp..bp + len] && input[len..] == chBuf[..][bp + len..nChars] + file
    {
      ScanEnded(m, q, input, p, state, cp - bp, lastState, lastPos - bp);
      hide WellFormed, IsStart, Scanning, Ended, StateAfter, Stops, Reads;
      NothingBeyond(m, q, input, p);
      len := Plan(bp, cp, state, q, input, p);
    }

    /** All that is needed about the buffer before it is cut at the end of the token. */
    lemma BeforeCut(bp: nat, cp: nat, state: nat, q: nat, input: seq<byte>, p: nat, zero: bool, whole: seq<byte>)
      returns (len: nat)
      requires WellFormed(m) && IsStart(m, q) && At(q, input, bp, p, zero, state, cp)
      requires whole == chBuf[..] && IsState(m, state) && Stops(m, state) && (!zero ==> p >= 1)
      ensures Compressed(m) && IsState(m, q) && (Accept(m, state) == 0 ==> IsState(m, lastState))
      ensures zero <==>
        m.endOfBuffer == if Accept(m, state) != 0 then Accept(m, state) else Accept(m, lastState)
      ensures !zero ==> bp + len <= nChars && Longest(m, q, input, len)
      ensures !zero ==>
        Rule(m, q, input[..len]) == if Accept(m, state) != 0 then Accept(m, state) else Accept(m, lastState)
      ensures !zero ==> input[..len] == whole[bp..bp + len]
      ensures !zero ==> input[len..] == whole[bp + len..nChars] + file
      ensures bp + len == if Accept(m, state) != 0 then cp else lastPos
      ensures Marked() && bp <= nChars && nChars + 2 <= chBuf.Length
      ensures zero ==> len == p + 1 && bp + p <= nChars && whole[bp + p] == 0 && whole[bp..nChars] + file == input
    {
      StartPlain(m, q);
      MarkShows(m, q, input, p, zero, state, cp - bp, lastState, lastPos - bp);
      hide WellFormed, IsStart, IsState, Stops, Accept, Longest, Rule, Scanning;
      if zero {
        len := p + 1;
        assert chBuf[bp..nChars] == whole[bp..nChars];
      } else {
        len := PlanAfterMatch(bp, cp, state, q, input, p);
      }
    }

    /** The state the loop of yy_match ended in decides: a token, or the end of the buffer. */
    method Decide(bp: nat, cp0: nat, state: nat, q: nat, ghost input: seq<byte>, ghost p: nat, ghost zero: bool)
      returns (mark: bool, r: Result)
      requires WellFormed(m) && IsStart(m, q) && At(q, input, bp, p, zero, state, cp0)
      requires IsState(m, state) && Stops(m, state) && (!zero ==> p >= 1)
      modifies this`textPtr, this`hold, this`cBufP, chBuf
      ensures mark == zero && IsState(m, q)
      ensures !mark ==> Good(q, input, r)
      ensures mark ==> MarkCut(input, p)
    {
      hide WellFormed, Compressed, IsStart, IsState, Stops, Accept, Longest, Rule, At, WasWhole, Good, MarkCut, Marked;
      ghost var whole := chBuf[..];
      ghost var len := BeforeCut(bp, cp0, state, q, input, p, zero, whole);
      var act, cp := FindAction(bp, cp0, state);
      if act != m.endOfBuffer {
        GoodAs(whole, q, input, act, len);
        mark, r := false, Token(act, chBuf[bp..cp]);
      } else {
        MarkCutAs(whole, input, p);
        mark, r := true, Eof;
      }
    }

    /** One run of the automaton from state at cp, and what follows from where it stops. */
    method Scan(cp0: nat, state0: nat, q: nat, ghost input: seq<byte>, bp: nat, ghost p: nat)
      returns (done: bool, r: Result, cp: nat, state: nat, ghost p1: nat)
      requires WellFormed(m) && IsStart(m, q) && At(q, input, bp, p, false, state0, cp0)
      modifies this, chBuf
      ensures chBuf == old(chBuf) || fresh(chBuf)
      ensures IsState(m, q) && (done ==> Good(q, input, r))
      ensures !done ==> At(q, input, textPtr, p1, false, state, cp) && p1 <= |input|
      ensures !done ==> |file| < |old(file)| || (file == old(file) && p1 > p)
    {
      hide WellFormed, IsStart, IsState, Stops, Good, At;
      var c, s, p0, zero := Match(cp0, state0, q, input, bp, p);
      var mark, token := Decide(bp, c, s, q, input, p0, zero);
      if !mark {
        done, r, cp, state, p1 := true, token, c, s, p0;
      } else {
        CutBounds(input, p0);
        done, r, cp, state, p1 := EndOfBuffer(p0, q, input);
        if !done {
          AtBounds(q, input, textPtr, p1, false, state, cp);
        }
      }
    }

    lemma CutBounds(input: seq<byte>, p: nat)
      requires MarkCut(input, p)
      ensures cBufP < chBuf.Length && cBufP == textPtr + p + 1
    {
    }

    lemma AtBounds(q: nat, input: seq<byte>, bp: nat, p: nat, zero: bool, state: nat, cp: nat)
      requires WellFormed(m) && IsStart(m, q) && At(q, input, bp, p, zero, state, cp)
      ensures p <= |input|
    {
    }

    /** yylex up to the action of the rule: wherever the reads of the file break the input, through
        every move, growth and refill of the buffer, the token is the longest accepted prefix of all
        the input that is left, and exactly that prefix is used up. */
    method NextToken(q: nat) returns (r: Result)
      requires WellFormed(m) && IsStart(m, q) && IsState(m, q) && Ready()
      modifies this, chBuf
      ensures chBuf == old(chBuf) || fresh(chBuf)
      ensures Good(q, old(Rest()), r)
    {
      ghost var input := Rest();
      ghost var p: nat := 0;
      r := Eof;
      ghost var whole := Restored();
      chBuf[cBufP] := hold;
      assert chBuf[..] == whole;
      assert chBuf[cBufP..nChars] == whole[cBufP..nChars];
      var cp, bp, state, done := cBufP, cBufP, q, false;
      StartScanning(m, q, input, lastState, lastPos - cp);
      assert At(q, input, bp, p, false, state, cp);
      hide WellFormed, IsStart, IsState, Good, At, Ready, Rest, Restored;
      while !done
        invariant chBuf == old(chBuf) || fresh(chBuf)
        invariant done ==> Good(q, input, r)
        invariant !done ==> At(q, input, bp, p, false, state, cp) && p <= |input|
        decreases !done, |file|, |input| - p
      {
        done, r, cp, state, p := Scan(cp, state, q, input, bp, p);
        bp := textPtr;
      }
    }

    /** What rules with trailing context of one character add to their actions: the last character
        of the match is given back to the input. */
    method GiveBack()
      requires Ready() && textPtr < cBufP
      modifies this`cBufP, this`hold, chBuf
      ensures Ready() && Rest() == [old(chBuf[cBufP - 1])] + old(Rest())
      ensures textPtr <= cBufP && chBuf[textPtr..cBufP] == old(chBuf[textPtr..cBufP - 1])
    {
      ghost var whole := Restored();
      chBuf[cBufP] := hold;
      cBufP := cBufP - 1;
      assert chBuf[..] == whole;
      hold := chBuf[cBufP];
      chBuf[cBufP] := 0;
      RestoredAs(whole);
    }

    /** yylex with the rule's own part of the action: the next token as the rules define it. */
    method Lex(q: nat, trailing: nat) returns (r: Result)
      requires WellFormed(m) && IsStart(m, q) && TwoOrMore(m, q, trailing) && Ready()
      modifies this, chBuf
      ensures chBuf == old(chBuf) || fresh(chBuf)
      ensures Ready() && r == TokenOf(m, q, trailing, old(Rest()))
      ensures Rest() == if r.Eof? then [] else old(Rest())[|r.text|..]
    {
      hide Good, Rest, Restored, Longest, Rule, TokenOf, WellFormed, IsStart, IsState, TwoOrMore;
      ghost var input := Rest();
      StartPlain(m, q);
      r := NextToken(q);
      GoodFacts(q, input, r);
      if r.Token? {
        MatchIsToken(m, q, trailing, input, |r.text|);
        if r.rule == trailing {
          ghost var n := |r.text|;
          GiveBack();
          r := Token(trailing, chBuf[textPtr..cBufP]);
          assert r.text == input[..n - 1];
          assert [input[n - 1]] + input[n..] == input[n - 1..];
        }
      }
    }

    lemma GoodFacts(q: nat, input: seq<byte>, r: Result)
      requires WellFormed(m) && IsState(m, q) && Good(q, input, r)
      ensures Ready()
      ensures r.Eof? ==> input == [] && Rest() == []
      ensures r.Token? ==>
        && textPtr + |r.text| == cBufP && chBuf[textPtr..cBufP] == r.text == input[..|r.text|]
        && Longest(m, q, input, |r.text|) && r.rule == Rule(m, q, r.text) && Rest() == input[|r.text|..]
    {
    }

    /** All tokens up to the end of the file. Between them the actions set the start condition to
        whatever they like: `start` says which, from the tokens so far. */
    method ScanFile(trailing: nat, start: seq<Result> -> nat) returns (ts: seq<Result>)
      requires WellFormed(m) && Directs(m, trailing, start) && Ready()
      modifies this, chBuf
      ensures chBuf == old(chBuf) || fresh(chBuf)
      ensures ts == Split(m, trailing, start, [], old(Rest()))
      ensures Ready() && Rest() == []
    {
      hide Rest, Restored, TokenOf, WellFormed, IsStart, IsState, TwoOrMore, Split;
      ts := [];
      ghost var input := Rest();
      var ended := false;
      while !ended
        invariant chBuf == old(chBuf) || fresh(chBuf)
        invariant Ready() && (ended ==> Rest() == [])
        invariant ts + Split(m, trailing, start, ts, Rest()) == Split(m, trailing, start, [], input)
        invariant ended ==> ts == Split(m, trailing, start, [], input)
        decreases !ended, |Rest()|
      {
        SplitTurn(m, trailing, start, ts, Rest());
        var r := Lex(start(ts), trailing);
        if r.Eof? {
          ended := true;
        } else {
          ts := ts + [r];
        }
      }
    }
  }

  // ---------------------------------------------------------------- the whole file

  /** No single character is a match of the rule with trailing context (rule 25, which asks for a
      digit and a character after it). */
  ghost predicate TwoOrMore(m: Machine, q: nat, trailing: nat)
    requires WellFormed(m) && IsStart(m, q)
  {
    forall c :: 1 <= c < Classes(m) ==> Accept(m, Delta(m, q, c)) != trailing
  }

  ghost predicate Directs(m: Machine, trailing: nat, start: seq<Result> -> nat)
    requires WellFormed(m)
  {
    forall ts :: IsStart(m, start(ts)) && TwoOrMore(m, start(ts), trailing)
  }

  lemma ShortNotTrailing(m: Machine, q: nat, trailing: nat, input: seq<byte>)
    requires WellFormed(m) && IsStart(m, q) && TwoOrMore(m, q, trailing) && input != []
    ensures Rule(m, q, input[..1]) != trailing
  {
    StateNext(m, q, input, 0);
    assert input[..0] == [];
  }

  /** The first token of an input: its longest match, without the trailing context. */
  function TokenOf(m: Machine, q: nat, trailing: nat, input: seq<byte>): (r: Result)
    requires WellFormed(m) && IsStart(m, q) && TwoOrMore(m, q, trailing)
    ensures r.Eof? <==> input == []
    ensures r.Token? ==> 1 <= |r.text| <= |input| && r.text == input[..|r.text|]
  {
    if input == [] then Eof
    else
      ShortNotTrailing(m, q, trailing, input);
      var n := FindLongest(m, q, input, |input|);
      var rule := Rule(m, q, input[..n]);
      Token(rule, input[..if rule == trailing then n - 1 else n])
  }

  /** An input cut into longest matches, one after the other, after the tokens in `done`. */
  function Split(m: Machine, trailing: nat, start: seq<Result> -> nat, done: seq<Result>, input: seq<byte>):
    (ts: seq<Result>)
    requires WellFormed(m) && Directs(m, trailing, start)
    ensures forall r :: r in ts ==> r.Token?
    decreases |input|
  {
    var r := TokenOf(m, start(done), trailing, input);
    if r.Eof? then []
    else [r] + Split(m, trailing, start, done + [r], input[|r.text|..])
  }

  /** The longest match of NextToken is the one that defines the token. */
  lemma MatchIsToken(m: Machine, q: nat, trailing: nat, input: seq<byte>, n: nat)
    requires WellFormed(m) && IsState(m, q) && IsStart(m, q) && TwoOrMore(m, q, trailing) && Longest(m, q, input, n)
    ensures var rule := Rule(m, q, input[..n]);
      && TokenOf(m, q, trailing, input) == Token(rule, input[..if rule == trailing then n - 1 else n])
      && (rule == trailing ==> n >= 2)
  {
    hide Rule, WellFormed, IsStart, IsState, TwoOrMore;
    assert 1 <= n <= |input|;
    LongestUnique(m, q, input, n, FindLongest(m, q, input, |input|));
    ShortNotTrailing(m, q, trailing, input);
  }

  lemma SplitTurn(m: Machine, trailing: nat, start: seq<Result> -> nat, done: seq<Result>, input: seq<byte>)
    requires WellFormed(m) && Directs(m, trailing, start)
    ensures var r := TokenOf(m, start(done), trailing, input);
      if r.Eof? then Split(m, trailing, start, done, input) == []
      else done + Split(m, trailing, start, done, input) ==
           (done + [r]) + Split(m, trailing, start, done + [r], input[|r.text|..])
  {
    hide TokenOf, WellFormed, IsStart, TwoOrMore;
  }

  function Texts(ts: seq<Result>): seq<byte>
    requires forall r :: r in ts ==> r.Token?
  {
    if ts == [] then [] else ts[0].text + Texts(ts[1..])
  }

  /** No character is lost, added or moved by scanning: the texts of the tokens are the file. */
  lemma {:induction false} SplitSpellsInput(m: Machine, trailing: nat, start: seq<Result> -> nat, done: seq<Result>,
                                            input: seq<byte>)
    requires WellFormed(m) && Directs(m, trailing, start)
    ensures Texts(Split(m, trailing, start, done, input)) == input
    decreases |input|
  {
    hide TokenOf, WellFormed, IsStart, TwoOrMore, Texts;
    var r := TokenOf(m, start(done), trailing, input);
    if r.Token? {
      var left := input[|r.text|..];
      SplitSpellsInput(m, trailing, start, done + [r], left);
      TextsCons(r, Split(m, trailing, start, done + [r], left));
      assert input == r.text + left;
    } else {
      NoTexts();
    }
  }

  lemma NoTexts()
    ensures Texts([]) == []
  {
  }

  lemma TextsCons(r: Result, ts: seq<Result>)
    requires r.Token? && forall t :: t in ts ==> t.Token?
    ensures Texts([r] + ts) == r.text + Texts(ts)
  {
    assert ([r] + ts)[1..] == ts;
  }
}
