/** The TCP path of the FPGA Management Core: network words are searched for the end of the HTTP header, and
    what follows it travels through an 8-byte overflow buffer, a bounded FIFO and a hangover FIFO to the
    HWICAP. The reference is a fold over the received bytes. */
module TcpHwicap {
  import opened HwicapWords

  const NETWORK_WORD_BYTE_WIDTH: nat := 8

  datatype NetWord = NetWord(data: seq<Byte>, keep: bv8, last: bool)

  type TcpWord = w: NetWord | |w.data| == 8 witness NetWord([0, 0, 0, 0, 0, 0, 0, 0], 0, false)

  /** The receive loop takes lane `i` when `tkeep >> i` is nonzero: every lane up to the highest set bit. */
  function KeptLanes(keep: bv8): (n: nat)
    ensures n <= 8
  {
    if keep >= 128 then 8 else if keep >= 64 then 7 else if keep >= 32 then 6 else if keep >= 16 then 5
    else if keep >= 8 then 4 else if keep >= 4 then 3 else if keep >= 2 then 2 else if keep >= 1 then 1 else 0
  }

  predicate LaneKept(keep: bv8, i: nat)
    requires i < 8
  {
    (keep >> i) != 0
  }

  lemma LaneTaken(keep: bv8, i: nat)
    requires i < 8
    ensures LaneKept(keep, i) <==> i < KeptLanes(keep)
  {
    if i == 0 {
    } else if i == 1 {
    } else if i == 2 {
    } else if i == 3 {
    } else if i == 4 {
    } else if i == 5 {
    } else if i == 6 {
    }
  }

  function Payload(w: TcpWord): seq<Byte> {
    w.data[..KeptLanes(w.keep)]
  }

  /** What the receiver has made of the stream: the buffered bytes, whether it only forwards, the two-bit
      newline counter, and the bytes forwarded so far. */
  datatype Rx = Rx(buf: seq<Byte>, writeOnly: bool, nl: nat, out: seq<Byte>)

  const RX_INIT := Rx([], false, 0, [])

  predicate EndsHeader(s: seq<Byte>) {
    |s| >= 4 && s[|s| - 4..] == CRLFCRLF
  }

  /** A byte is forwarded if a newline was seen before it; the counter wraps at four. */
  function RxByte(s: Rx, b: Byte): Rx {
    var out := if s.nl >= 1 then s.out + [b] else s.out;
    if s.writeOnly then s.(out := out) else
      var buf := s.buf + [b];
      Rx(buf, false, if EndsHeader(buf) then (s.nl + 1) % 4 else s.nl, out)
  }

  lemma RxBytesNone(s: Rx)
    ensures RxBytes(s, []) == s
  {
  }

  lemma RxBytesNext(s: Rx, p: seq<Byte>, i: nat)
    requires i < |p|
    ensures RxBytes(s, p[..i + 1]) == RxByte(RxBytes(s, p[..i]), p[i])
  {
    assert p[..i + 1][..i] == p[..i];
  }

  function RxBytes(s: Rx, bytes: seq<Byte>): Rx {
    if bytes == [] then s else RxByte(RxBytes(s, bytes[..|bytes| - 1]), bytes[|bytes| - 1])
  }

  /** After a word that nearly fills the buffer, bytes are only forwarded. */
  function CloseWord(s: Rx): Rx {
    if !s.writeOnly && |s.buf| >= IN_BUFFER_SIZE - NETWORK_WORD_BYTE_WIDTH then Rx([], true, s.nl, s.out) else s
  }

  function RxWord(s: Rx, bytes: seq<Byte>): Rx {
    CloseWord(RxBytes(s, bytes))
  }

  function RxWords(s: Rx, words: seq<seq<Byte>>): Rx {
    if words == [] then s else RxWord(RxWords(s, words[..|words| - 1]), words[|words| - 1])
  }

  function Payloads(input: seq<TcpWord>): (ps: seq<seq<Byte>>)
    ensures |ps| == |input|
  {
    if input == [] then [] else Payloads(input[..|input| - 1]) + [Payload(input[|input| - 1])]
  }

  lemma RxByteShift(s: Rx, p: seq<Byte>, b: Byte)
    ensures RxByte(s.(out := p + s.out), b) == RxByte(s, b).(out := p + RxByte(s, b).out)
  {
    hide EndsHeader;
    assert p + (s.out + [b]) == (p + s.out) + [b];
  }

  /** Bytes already taken out of the FIFOs do not influence the receiver. */
  lemma {:induction false} RxBytesShift(s: Rx, p: seq<Byte>, bytes: seq<Byte>)
    ensures RxBytes(s.(out := p + s.out), bytes) == RxBytes(s, bytes).(out := p + RxBytes(s, bytes).out)
  {
    hide RxByte;
    if bytes != [] {
      var init := bytes[..|bytes| - 1];
      RxBytesShift(s, p, init);
      RxByteShift(RxBytes(s, init), p, bytes[|bytes| - 1]);
    }
  }

  lemma {:induction false} RxWordsShift(s: Rx, p: seq<Byte>, words: seq<seq<Byte>>)
    ensures RxWords(s.(out := p + s.out), words) == RxWords(s, words).(out := p + RxWords(s, words).out)
  {
    if words != [] {
      var init := words[..|words| - 1];
      RxWordsShift(s, p, init);
      RxBytesShift(RxWords(s, init), p, words[|words| - 1]);
    }
  }

  lemma {:induction false} RxWordsConcat(s: Rx, a: seq<seq<Byte>>, b: seq<seq<Byte>>)
    ensures RxWords(s, a + b) == RxWords(RxWords(s, a), b)
  {
    hide RxWord;
    if b == [] {
      assert a + b == a;
    } else {
      RxWordsConcat(s, a, b[..|b| - 1]);
      assert (a + b)[..|a + b| - 1] == a + b[..|b| - 1];
    }
  }

  datatype IcapFsm = Idle | Write | Done | Error

  /** No word of `ws` ends the transfer. */
  ghost predicate NoStop(ws: seq<Word>) {
    forall k | 0 <= k < |ws| :: !IsStop(ws[k])
  }

  class TcpHwicapPath {
    const depth: nat
    const notToSwap: bool
    const bufferIn: array<Byte>
    const last3Chars: array<Byte>
    const overflow: array<Byte>
    var bufferInPtrWrite: nat
    var bufferInPtrMaxWrite: nat
    var tcpWriteOnlyFifo: bool
    var detectedNl: nat
    var overflowLen: nat
    var processOverflow: bool
    var fifo: seq<Byte>
    var hangover: seq<Byte>
    var icap: IcapFsm
    var hwicap: seq<Word>
    /** The payloads received until the transfer ended, and the bytes taken for whole words. */
    ghost var words: seq<seq<Byte>>
    ghost var taken: seq<Byte>

    ghost predicate Shape()
      reads this, last3Chars
    {
      MidWord(0)
    }

    /** As between words, except that `lane` lanes of the current word are already received. */
    ghost predicate MidWord(lane: nat)
      reads this, last3Chars
    {
      && bufferIn.Length == IN_BUFFER_SIZE && last3Chars.Length == 3 && overflow.Length == 8
      && bufferIn != last3Chars && bufferIn != overflow && last3Chars != overflow
      && depth > 0 && |fifo| <= depth && |hangover| < 4 && detectedNl < 4
      && overflowLen <= 8 && (overflowLen > 0 ==> processOverflow)
      && (if tcpWriteOnlyFifo then bufferInPtrWrite == 0
          else bufferInPtrWrite < IN_BUFFER_SIZE - NETWORK_WORD_BYTE_WIDTH + lane && last3Chars[0] == 0)
    }

    /** The receiver's state; its output is what waits in the FIFO and in the overflow buffer. */
    ghost function View(): Rx
      reads this, last3Chars, bufferIn, overflow
      requires Bounded()
    {
      Rx(if tcpWriteOnlyFifo then [] else bufferIn[..bufferInPtrWrite], tcpWriteOnlyFifo, detectedNl,
         fifo + overflow[..overflowLen])
    }

    ghost predicate Bounded()
      reads this
    {
      bufferInPtrWrite <= bufferIn.Length && overflowLen <= overflow.Length
    }

    /** The words written are those of the bytes taken, up to the stop word that ended the transfer. */
    ghost predicate Written()
      reads this
    {
      && |taken| % 4 == 0 && NoStop(hwicap)
      && if icap.Done? then
           && |taken| >= 4 && hwicap == Words(taken[..|taken| - 4], notToSwap)
           && IsStop(Pack(taken[|taken| - 4..], notToSwap))
         else hwicap == Words(taken, notToSwap)
    }

    /** Until the transfer ends, the bytes taken, then the hangover, the FIFO and the overflow buffer hold
        exactly the bytes that the reference forwards, in order. */
    ghost predicate Valid()
      reads this, last3Chars, bufferIn, overflow
    {
      && Shape() && Written()
      && if icap.Done? then taken <= RxWords(RX_INIT, words).out
         else View().(out := taken + hangover + View().out) == RxWords(RX_INIT, words)
    }

    /** `OP_CLEAR_IN_BUFFER` and `OP_TCP_CNT_RESET`, which open every TCP operation. */
    constructor (depth: nat, notToSwap: bool)
      requires depth > 0
      ensures Valid() && icap == Idle && words == [] && taken == [] && hwicap == []
      ensures this.depth == depth && this.notToSwap == notToSwap
      ensures fresh(bufferIn) && fresh(last3Chars) && fresh(overflow)
    {
      this.depth, this.notToSwap := depth, notToSwap;
      bufferIn, last3Chars := new Byte[IN_BUFFER_SIZE](_ => 0), new Byte[3](_ => 0);
      overflow := new Byte[8](_ => 0);
      bufferInPtrWrite, bufferInPtrMaxWrite, tcpWriteOnlyFifo, detectedNl := 0, 0, false, 0;
      overflowLen, processOverflow, fifo, hangover := 0, false, [], [];
      icap, hwicap, words, taken := Idle, [], [], [];
    }

    /** Emptying the overflow buffer into the FIFO. Nothing is lost if the FIFO has room for one byte on
        entry; on a full FIFO the first byte would be dropped by the compaction. */
    method FlushOverflow()
      requires Shape() && processOverflow
      modifies this`fifo, this`overflowLen, this`processOverflow, overflow
      ensures Shape() && (processOverflow ==> |fifo| == depth)
      ensures var ov := old(overflow[..overflowLen]);
              var k := if |ov| <= depth - |old(fifo)| then |ov| else depth - |old(fifo)|;
              && fifo == old(fifo) + ov[..k]
              && overflow[..overflowLen] == (if k == 0 && ov != [] then ov[1..] else ov[k..])
              && processOverflow == (k < |ov|)
    {
      ghost var ov := overflow[..overflowLen];
      ghost var k := if |ov| <= depth - |fifo| then |ov| else depth - |fifo|;
      ghost var from := if k == 0 then 1 else k;
      var n, newWriteIndex, onceBlocked := overflowLen, 0, false;
      for i := 0 to n
        invariant processOverflow && |fifo| == |old(fifo)| + if i < k then i else k
        invariant fifo == old(fifo) + ov[..if i < k then i else k]
        invariant onceBlocked == (i > k)
        invariant newWriteIndex == if i <= from then 0 else i - from
        invariant forall j | i <= j < n :: overflow[j] == ov[j]
        invariant forall j | 0 <= j < newWriteIndex :: overflow[j] == ov[from + j]
      {
        if !onceBlocked && |fifo| < depth {
          fifo := fifo + [overflow[i]];
        } else {
          onceBlocked := true;
          if i != newWriteIndex {
            overflow[newWriteIndex] := overflow[i];
            newWriteIndex := newWriteIndex + 1;
          }
        }
      }
      assert newWriteIndex > 0 ==> overflow[..newWriteIndex] == ov[from..];
      overflowLen := newWriteIndex;
      if !onceBlocked {
        processOverflow := false;
      }
    }

    /** The comparison with CR LF CR LF after the byte at `bufferInPtrWrite` is buffered. With a cleared
        buffer the comparison across a buffer wrap, which reads `last3Chars`, never matches. */
    method DetectNewline() returns (hit: bool)
      requires bufferInPtrWrite < bufferIn.Length && last3Chars.Length == 3 && last3Chars[0] == 0
      ensures hit == EndsHeader(bufferIn[..bufferInPtrWrite + 1])
    {
      EndsHeaderBytes(bufferIn[..bufferInPtrWrite + 1]);
      hit := false;
      if bufferInPtrWrite >= 3 {
        hit := bufferIn[bufferInPtrWrite] == 0x0a && bufferIn[bufferInPtrWrite - 1] == 0x0d
        && bufferIn[bufferInPtrWrite - 2] == 0x0a && bufferIn[bufferInPtrWrite - 3] == 0x0d;
      } else if bufferInPtrMaxWrite >= 3 {
        var charsToCompare: seq<Byte> := [];
        for j := 4 downto 0
          invariant |charsToCompare| == 4 - j
          invariant j < 4 ==> charsToCompare[0] == 0
        {
          if bufferInPtrWrite < j {
            charsToCompare := charsToCompare + [last3Chars[3 - j]];
          } else {
            charsToCompare := charsToCompare + [bufferIn[bufferInPtrWrite - j]];
          }
        }
        hit := charsToCompare == CRLFCRLF;
      }
    }

    /** Into the FIFO, or into the overflow buffer when the FIFO is full. */
    method Forward(b: Byte)
      requires |fifo| <= depth && overflow.Length == 8 && overflowLen < 8
      requires overflowLen > 0 ==> |fifo| == depth && processOverflow
      modifies this`fifo, this`overflowLen, this`processOverflow, overflow
      ensures |fifo| <= depth && overflowLen <= old(overflowLen) + 1
      ensures overflowLen > 0 ==> |fifo| == depth && processOverflow
      ensures fifo + overflow[..overflowLen] == old(fifo + overflow[..overflowLen]) + [b]
    {
      if |fifo| < depth {
        fifo := fifo + [b];
      } else {
        overflow[overflowLen] := b;
        overflowLen := overflowLen + 1;
        processOverflow := true;
      }
    }

    /** One lane of a received word. */
    method ReceiveByte(b: Byte, ghost lane: nat)
      requires MidWord(lane) && lane < 8 && overflowLen <= lane
      requires overflowLen > 0 ==> |fifo| == depth
      modifies this`fifo, this`overflowLen, this`processOverflow, this`detectedNl, this`bufferInPtrWrite
      modifies bufferIn, overflow
      ensures MidWord(lane + 1) && overflowLen <= lane + 1
      ensures overflowLen > 0 ==> |fifo| == depth
      ensures View() == RxByte(old(View()), b)
    {
      hide EndsHeader;
      ghost var rx := View();
      if !tcpWriteOnlyFifo {
        bufferIn[bufferInPtrWrite] := b;
        assert bufferIn[..bufferInPtrWrite + 1] == rx.buf + [b];
      }
      if detectedNl >= 1 {
        Forward(b);
      }
      if !tcpWriteOnlyFifo {
        var hit := DetectNewline();
        if hit {
          detectedNl := (detectedNl + 1) % 4;
        }
        bufferInPtrWrite := bufferInPtrWrite + 1;
      }
    }

    /** After the last lane: a nearly full buffer switches the receiver to forwarding only. */
    method EndWord() returns (switched: bool)
      requires MidWord(8)
      modifies this`bufferInPtrWrite, this`bufferInPtrMaxWrite, this`tcpWriteOnlyFifo, last3Chars
      ensures Shape() && View() == CloseWord(old(View()))
      ensures switched == (tcpWriteOnlyFifo && !old(tcpWriteOnlyFifo)) && (old(tcpWriteOnlyFifo) ==> tcpWriteOnlyFifo)
    {
      switched := false;
      if !tcpWriteOnlyFifo {
        bufferInPtrMaxWrite := if bufferInPtrWrite == 0 then 0xFFFF_FFFF else bufferInPtrWrite - 1;
        if bufferInPtrWrite >= IN_BUFFER_SIZE - NETWORK_WORD_BYTE_WIDTH {
          last3Chars[0] := bufferIn[bufferInPtrMaxWrite - 2];
          last3Chars[1] := bufferIn[bufferInPtrMaxWrite - 1];
          last3Chars[2] := bufferIn[bufferInPtrMaxWrite];
          bufferInPtrWrite := 0;
          tcpWriteOnlyFifo, switched := true, true;
        }
      }
    }

    /** The loop over the eight lanes. */
    method ReceiveWord(big: TcpWord) returns (switched: bool)
      requires Shape() && overflowLen == 0
      modifies this`fifo, this`overflowLen, this`processOverflow, this`detectedNl, this`bufferInPtrWrite
      modifies this`bufferInPtrMaxWrite, this`tcpWriteOnlyFifo, bufferIn, overflow, last3Chars
      ensures Shape() && View() == RxWord(old(View()), Payload(big))
      ensures switched == (tcpWriteOnlyFifo && !old(tcpWriteOnlyFifo)) && (old(tcpWriteOnlyFifo) ==> tcpWriteOnlyFifo)
    {
      hide RxByte, KeptLanes, LaneKept, RxBytes, CloseWord;
      ghost var rx, p := View(), Payload(big);
      assert p[..0] == [];
      RxBytesNone(rx);
      for i := 0 to 8
        invariant tcpWriteOnlyFifo == rx.writeOnly
        invariant MidWord(i) && overflowLen <= i && (overflowLen > 0 ==> |fifo| == depth)
        invariant View() == RxBytes(rx, p[..if i < |p| then i else |p|])
      {
        LaneTaken(big.keep, i);
        if LaneKept(big.keep, i) {
          ReceiveByte(big.data[i], i);
          RxBytesNext(rx, p, i);
        }
      }
      assert p[..|p|] == p;
      switched := EndWord();
    }
  
    lemma ViewOutput()
      requires Bounded()
      ensures View().out == fifo + overflow[..overflowLen]
      ensures var ov := overflow[..overflowLen];
              forall k | 0 <= k <= |ov| :: (fifo + ov[..k]) + ov[k..] == View().out
    {
      var ov := overflow[..overflowLen];
      forall k | 0 <= k <= |ov|
        ensures (fifo + ov[..k]) + ov[k..] == View().out
      {
        assert ov[..k] + ov[k..] == ov;
      }
    }

    /** `TCP_FSM_PROCESS_DATA`: flush, then receive words until the input or the FIFO space is used up, the
        receiver switches to forwarding only, or the stop condition holds. */
    method ProcessData(input: seq<TcpWord>, continuous: bool, targetNl: nat, gotoDone: bool)
      returns (k: nat, done: bool)
      requires Shape()
      modifies this`fifo, this`overflowLen, this`processOverflow, this`detectedNl, this`bufferInPtrWrite
      modifies this`bufferInPtrMaxWrite, this`tcpWriteOnlyFifo, bufferIn, overflow, last3Chars
      ensures Shape() && k <= |input|
      ensures View() == RxWords(old(View()), Payloads(input[..k]))
      ensures var switched := tcpWriteOnlyFifo && !old(tcpWriteOnlyFifo);
              && (done <==>
                    k > 0 && !switched && (gotoDone || (input[k - 1].last && (continuous ==> detectedNl >= targetNl))))
              && (done || switched || |fifo| == depth || k == |input| || k == IN_BUFFER_SIZE)
      ensures input == [] ==> |fifo| + overflowLen == old(|fifo| + overflowLen) && overflowLen <= old(overflowLen)
      ensures input == [] && |old(fifo)| < depth ==> overflowLen == 0 || overflowLen < old(overflowLen)
    {
      hide RxWord, RxWords, Payload, Payloads;
      ghost var rx := View();
      k, done := 0, false;
      RxWordsNone(rx);
      var f, switched := 0, false;
      assert input[..0] == [];
      while f < IN_BUFFER_SIZE
        invariant Shape() && k == f <= |input| && f <= IN_BUFFER_SIZE && !done && !switched
        invariant tcpWriteOnlyFifo == rx.writeOnly
        invariant View() == RxWords(rx, Payloads(input[..k]))
        invariant k > 0 ==> !gotoDone && (input[k - 1].last ==> continuous && detectedNl < targetNl)
        invariant k == 0 ==> fifo == old(fifo) && overflowLen == old(overflowLen)
      {
        if |fifo| == depth {
          break;
        }
        ViewOutput();
        if processOverflow {
          FlushOverflow();
          ViewOutput();
          if processOverflow {
            break;
          }
        }
        if k == |input| || |fifo| == depth {
          break;
        }
        switched := ReceiveWord(input[k]);
        RxWordsNext(rx, input, k);
        k := k + 1;
        if switched {
          break;
        }
        if (input[k - 1].last && (!continuous || detectedNl >= targetNl)) || gotoDone {
          done := true;
          break;
        }
        f := f + 1;
      }
    }

    /** One call of the TCP receive process, with whatever words the network offers. */
    method ReceiveTcp(input: seq<TcpWord>, continuous: bool, targetNl: nat, gotoDone: bool)
      returns (k: nat, done: bool)
      requires Valid()
      modifies this`fifo, this`overflowLen, this`processOverflow, this`detectedNl, this`bufferInPtrWrite
      modifies this`bufferInPtrMaxWrite, this`tcpWriteOnlyFifo, this`words, bufferIn, overflow, last3Chars
      ensures Valid() && k <= |input|
      ensures words == if icap.Done? then old(words) else old(words) + Payloads(input[..k])
      ensures done ==> k > 0 && (gotoDone || input[k - 1].last)
      ensures !done ==> k == |input| || |fifo| == depth || tcpWriteOnlyFifo || k == IN_BUFFER_SIZE
      ensures input == [] ==> |fifo| + overflowLen == old(|fifo| + overflowLen) && overflowLen <= old(overflowLen)
      ensures input == [] && |old(fifo)| < depth ==> overflowLen == 0 || overflowLen < old(overflowLen)
    {
      hide RxWords, Payloads, Pack, Words;
      ghost var v, p := View(), taken + hangover;
      k, done := ProcessData(input, continuous, targetNl, gotoDone);
      if !icap.Done? {
        ghost var ps := Payloads(input[..k]);
        RxWordsConcat(RX_INIT, words, ps);
        RxWordsShift(v, p, ps);
        words := words + ps;
      }
    }

    /** The first execution of `OP_FIFO_TO_HWICAP`. */
    method StartHwicap()
      requires Valid() && icap.Idle?
      modifies this`icap
      ensures Valid() && icap.Write?
    {
      icap := Write;
    }

    /** The next group of up to four bytes, hangover first. */
    method ReadGroup() returns (bytes: seq<Byte>)
      requires |hangover| < 4
      modifies this`fifo, this`hangover
      ensures hangover == [] && bytes + fifo == old(hangover + fifo)
      ensures |bytes| <= 4 && (|bytes| < 4 ==> fifo == [])
    {
      bytes := [];
      while hangover != []
        invariant bytes + hangover == old(hangover) && fifo == old(fifo)
        decreases |hangover|
      {
        bytes, hangover := bytes + [hangover[0]], hangover[1..];
      }
      while |bytes| < 4 && fifo != []
        invariant |bytes| <= 4 && hangover == [] && bytes + fifo == old(hangover + fifo)
        decreases |fifo|
      {
        bytes, fifo := bytes + [fifo[0]], fifo[1..];
      }
    }

    /** As `Valid` while the group `bytes` is out of the FIFOs. */
    ghost predicate Holding(bytes: seq<Byte>)
      reads this, last3Chars, bufferIn, overflow
    {
      && Shape() && Written() && icap.Write? && hangover == []
      && View().(out := taken + bytes + View().out) == RxWords(RX_INIT, words)
    }

    /** A full group that is no stop word goes to the HWICAP. */
    method WriteWord(bytes: seq<Byte>)
      requires |bytes| == 4 && Holding(bytes) && !IsStop(Pack(bytes, notToSwap))
      modifies this`hwicap, this`taken
      ensures Valid() && icap.Write? && taken == old(taken) + bytes
      ensures hwicap == old(hwicap) + [Pack(bytes, notToSwap)]
    {
      hide RxWords, Words, Pack, IsStop;
      WordTaken(taken, bytes, notToSwap);
      ghost var v := View().out;
      assert taken + bytes + [] + v == taken + bytes + v;
      taken := taken + bytes;
      hwicap := hwicap + [Pack(bytes, notToSwap)];
    }

    /** A stop word ends the transfer and is not written. A newline pattern is counted if the receiver only forwards. */
    method EndTransfer(bytes: seq<Byte>)
      requires |bytes| == 4 && Holding(bytes) && IsStop(Pack(bytes, notToSwap))
      modifies this`icap, this`detectedNl, this`taken
      ensures Valid() && icap.Done? && taken == old(taken) + bytes
      ensures tcpWriteOnlyFifo && (bytes == CRLFCRLF || bytes == [0x0a, 0x0d, 0x0a, 0x0d]) ==>
                detectedNl == (old(detectedNl) + 1) % 4
      ensures !tcpWriteOnlyFifo || (bytes != CRLFCRLF && bytes != [0x0a, 0x0d, 0x0a, 0x0d]) ==>
                detectedNl == old(detectedNl)
    {
      hide RxWords, Words, Pack, IsStop, IsNewline, NoStop;
      NewlineBytes(bytes, notToSwap);
      WordTaken(taken, bytes, notToSwap);
      ghost var v := View().out;
      assert taken + bytes <= taken + bytes + v;
      taken := taken + bytes;
      var tmp := Pack(bytes, notToSwap);
      if IsNewline(tmp) && tcpWriteOnlyFifo {
        detectedNl := (detectedNl + 1) % 4;
      }
      icap := Done;
    }

    /** Taking the next group out of the FIFOs. */
    method TakeGroup() returns (bytes: seq<Byte>)
      requires Valid() && icap.Write?
      modifies this`fifo, this`hangover
      ensures Holding(bytes) && bytes + fifo == old(hangover + fifo)
      ensures |bytes| <= 4 && (|bytes| < 4 ==> fifo == [])
    {
      hide RxWords, Words, Pack, IsStop, NoStop;
      ghost var queue, waiting := hangover + fifo, overflow[..overflowLen];
      assert taken + hangover + View().out == taken + (queue + waiting);
      bytes := ReadGroup();
      assert taken + bytes + View().out == taken + (queue + waiting);
    }

    /** An incomplete group goes back to the hangover FIFO. */
    method PutBack(bytes: seq<Byte>)
      requires |bytes| < 4 && Holding(bytes)
      modifies this`hangover
      ensures Valid() && hangover == bytes
    {
      hide RxWords, Words, Pack, IsStop, NoStop;
      hangover := bytes;
    }

    /** One turn of the HWICAP loop: a full group is written, or ends the transfer; fewer than four bytes
        go back to the hangover FIFO. */
    method WriteGroup() returns (written: bool)
      requires Valid() && icap.Write?
      modifies this`fifo, this`hangover, this`icap, this`hwicap, this`detectedNl, this`taken
      ensures Valid() && (icap.Write? || icap.Done?)
      ensures old(taken) <= taken && taken + hangover + fifo == old(taken + hangover + fifo)
      ensures written ==> icap.Write?
      ensures |hangover| + |fifo| + 4 * (|hwicap| - |old(hwicap)|) <= old(|hangover| + |fifo|)
      ensures |hwicap| == |old(hwicap)| + if written then 1 else 0
      ensures !written ==> icap.Done? || fifo == []
    {
      hide *;
      ghost var before, queue := taken, hangover + fifo;
      assert taken + hangover + fifo == before + queue;
      var bytes := TakeGroup();
      assert before + bytes + fifo == before + queue;
      HoldingMeans(bytes);
      if |bytes| != 4 {
        PutBack(bytes);
        return false;
      }
      written := !IsStop(Pack(bytes, notToSwap));
      if written {
        WriteWord(bytes);
      } else {
        EndTransfer(bytes);
      }
      assert taken + hangover + fifo == taken + fifo;
    }

    lemma HoldingMeans(bytes: seq<Byte>)
      requires Holding(bytes)
      ensures icap.Write? && hangover == []
    {
    }

    /** The HWICAP is not accessible. */
    method FailHwicap()
      requires Valid() && icap.Write?
      modifies this`icap
      ensures Valid() && icap.Error?
    {
      icap := Error;
    }

    /** One turn of the loop of `ICAP_FSM_WRITE`, after `n` words and `readings` readings of the vacancy, of which
        `left` are unused. Without vacancy left it is read again first. */
    method WriteTurn(wfv: nat -> nat, readings: nat, left: nat, ghost n: nat)
      returns (more: bool, used: nat, rest: nat)
      requires Valid() && icap.Write? && Rationing(wfv, readings, n, left)
      modifies this`fifo, this`hangover, this`icap, this`hwicap, this`detectedNl, this`taken
      ensures Valid() && (if more then icap.Write? else icap.Write? || icap.Done?)
      ensures old(taken) <= taken && taken + hangover + fifo == old(taken + hangover + fifo)
      ensures |hwicap| == |old(hwicap)| + if more then 1 else 0
      ensures |hangover| + |fifo| + 4 * (|hwicap| - |old(hwicap)|) <= old(|hangover| + |fifo|)
      ensures Rationed(wfv, used, n + if more then 1 else 0) && (more ==> Rationing(wfv, used, n + 1, rest))
      ensures !more ==> icap.Done? || fifo == [] || Exhausted(wfv, used, n)
    {
      hide *;
      RationKept(wfv, readings, n, left);
      more, used, rest := false, readings, left;
      if fifo == [] && hangover == [] {
        return;
      }
      if rest == 0 {
        rest, used := wfv(readings), readings + 1;
        if rest == 0 {
          return;
        }
      }
      more := WriteGroup();
      if more {
        rest := rest - 1;
      }
    }

    /** `ICAP_FSM_WRITE`. `wfv` gives the successive readings of the HWICAP's write FIFO vacancy, of which the first
        `readings` are taken: the words written never outnumber their sum, a further reading is taken only when the
        earlier ones are used up, and one without vacancy ends the call. */
    method WriteHwicap(eos: bool, wfv: nat -> nat) returns (readings: nat)
      requires Valid() && icap.Write?
      modifies this`fifo, this`hangover, this`icap, this`hwicap, this`detectedNl, this`taken
      ensures Valid() && !icap.Idle? && (icap.Error? <==> !eos)
      ensures old(taken) <= taken && taken + hangover + fifo == old(taken + hangover + fifo)
      ensures !eos ==> taken == old(taken) && hwicap == old(hwicap) && readings == 0
      ensures Rationed(wfv, readings, |hwicap| - |old(hwicap)|)
      ensures eos ==> icap.Done? || fifo == [] || |hwicap| == |old(hwicap)| + IN_BUFFER_SIZE
                      || Exhausted(wfv, readings, |hwicap| - |old(hwicap)|)
      ensures |hangover| + |fifo| + 4 * (|hwicap| - |old(hwicap)|) <= old(|hangover| + |fifo|)
    {
      assert IN_BUFFER_SIZE == 4096;
      hide *;
      RationStart(wfv);
      if !eos {
        FailHwicap();
        return 0;
      }
      readings := 1;
      var more, maxWordsToWrite := true, wfv(0);
      for f := 0 to IN_BUFFER_SIZE
        invariant Valid() && more && icap.Write?
        invariant old(taken) <= taken && taken + hangover + fifo == old(taken + hangover + fifo)
        invariant |hangover| + |fifo| + 4 * f <= old(|hangover| + |fifo|) && |hwicap| == |old(hwicap)| + f
        invariant Rationing(wfv, readings, f, maxWordsToWrite) && Rationed(wfv, readings, f)
      {
        more, readings, maxWordsToWrite := WriteTurn(wfv, readings, maxWordsToWrite, f);
        if !more {
          break;
        }
      }
    }
  }

  /** The sum of the first `n` readings. */
  ghost function VacancySum(wfv: nat -> nat, n: int): nat {
    if n <= 0 then 0 else VacancySum(wfv, n - 1) + wfv(n - 1)
  }

  /** `n` words use the first `readings` readings: no more words than vacancies, and all earlier readings are used up
      when the last one is taken. */
  ghost predicate Rationed(wfv: nat -> nat, readings: nat, n: int) {
    && VacancySum(wfv, readings - 1) <= n <= VacancySum(wfv, readings)
    && forall i | 0 < i < readings - 1 :: wfv(i) > 0
  }

  /** While the loop runs: `left` words still fit. */
  ghost predicate Rationing(wfv: nat -> nat, readings: nat, n: nat, left: nat) {
    && readings > 0 && VacancySum(wfv, readings - 1) <= n && n + left == VacancySum(wfv, readings)
    && forall i | 0 < i < readings :: wfv(i) > 0
  }

  lemma RationStart(wfv: nat -> nat)
    ensures Rationed(wfv, 0, 0) && Rationed(wfv, 1, 0) && Rationing(wfv, 1, 0, wfv(0))
  {
    assert VacancySum(wfv, -1) == VacancySum(wfv, 0) == 0 && VacancySum(wfv, 1) == wfv(0);
  }

  lemma RationKept(wfv: nat -> nat, readings: nat, n: nat, left: nat)
    requires Rationing(wfv, readings, n, left)
    ensures Rationed(wfv, readings, n)
    ensures left > 0 ==> Rationed(wfv, readings, n + 1) && Rationing(wfv, readings, n + 1, left - 1)
    ensures left == 0 ==> Rationed(wfv, readings + 1, n)
    ensures left == 0 && wfv(readings) == 0 ==> Exhausted(wfv, readings + 1, n)
    ensures left == 0 && wfv(readings) > 0 ==>
              Rationed(wfv, readings + 1, n + 1) && Rationing(wfv, readings + 1, n + 1, wfv(readings) - 1)
  {
    assert VacancySum(wfv, readings + 1) == VacancySum(wfv, readings) + wfv(readings);
  }

  /** The last reading shows no vacancy, and all earlier ones are used up. */
  ghost predicate Exhausted(wfv: nat -> nat, readings: nat, n: int) {
    readings > 1 && wfv(readings - 1) == 0 && n == VacancySum(wfv, readings)
  }

  /** With no vacancy after the first reading, no more words are written than that reading allows. */
  lemma FirstVacancy(wfv: nat -> nat, readings: nat, n: int)
    requires Rationed(wfv, readings, n) && forall i :: i > 0 ==> wfv(i) == 0
    ensures n <= wfv(0)
  {
    assert wfv(1) == 0 && VacancySum(wfv, 1) == wfv(0) && VacancySum(wfv, 2) == wfv(0) + wfv(1);
  }

  lemma RxWordsNone(s: Rx)
    ensures RxWords(s, Payloads([])) == s
  {
  }

  lemma RxWordsNext(s: Rx, input: seq<TcpWord>, k: nat)
    requires k < |input|
    ensures RxWords(s, Payloads(input[..k + 1])) == RxWord(RxWords(s, Payloads(input[..k])), Payload(input[k]))
  {
    hide RxWord, Payload;
    assert input[..k + 1][..k] == input[..k];
    var ps := Payloads(input[..k]);
    assert (ps + [Payload(input[k])])[..k] == ps;
  }

  lemma WordTaken(taken: seq<Byte>, b: seq<Byte>, notToSwap: bool)
    requires |taken| % 4 == 0 && |b| == 4
    ensures Words(taken + b, notToSwap) == Words(taken, notToSwap) + [Pack(b, notToSwap)]
    ensures |taken + b| % 4 == 0 && (taken + b)[..|taken|] == taken && (taken + b)[|taken|..] == b
  {
    WordsConcat(taken, b, notToSwap);
    OneWord(b, notToSwap);
  }

  lemma EndsHeaderBytes(s: seq<Byte>)
    ensures EndsHeader(s) <==>
            |s| >= 4 && s[|s| - 1] == 0x0a && s[|s| - 2] == 0x0d && s[|s| - 3] == 0x0a && s[|s| - 4] == 0x0d
  {
    if |s| >= 4 {
      assert s[|s| - 4..] == [s[|s| - 4], s[|s| - 3], s[|s| - 2], s[|s| - 1]];
    }
  }
}
