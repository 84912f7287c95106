/** One serial port of iec104/plcserver.c: polling its devices and collecting their replies. */
module RsPort {
  import opened Bytes
  import Crc16
  import F = ModbusFrames
  import P = PollOrder

  /** struct DEV_TAB */
  datatype Device = Device(flag: bool, addr: bv8, dataType: bv8, start0: bv8, start1: bv8, regCnt: bv8)

  datatype Line = Rs232 | Rs485

  function Flags(tab: seq<Device>): (flags: seq<bool>)
    ensures |flags| == |tab|
  {
    seq(|tab|, i requires 0 <= i < |tab| => tab[i].flag)
  }

  /** The six bytes of a read request before its checksum. */
  function Request(d: Device): seq<bv8> {
    [d.addr, d.dataType, d.start0, d.start1, 0, d.regCnt]
  }

  /** struct RS_PORT_TAB with protocol Modbus. */
  class Port {
    const line: Line
    var tab: seq<Device>
    var subId: int
    var t10: nat
    var bufLen: nat
    const asynBuf: array<byte>

    ghost predicate Valid()
      reads this
    {
      && asynBuf.Length == F.ASYN_SIZE
      && bufLen <= F.ASYN_SIZE
      && tab != [] && -1 <= subId < |tab|
    }

    ghost function Stored(): seq<byte>
      requires Valid()
      reads this, asynBuf
    {
      asynBuf[..bufLen]
    }

    /** init_RS_port */
    constructor (line: Line, tab: seq<Device>)
      requires tab != []
      ensures Valid() && fresh(asynBuf) && this.line == line && this.tab == tab
      ensures Stored() == [] && subId == -1 && t10 == 0
    {
      this.line, this.tab := line, tab;
      subId, t10, bufLen := -1, 0, 0;
      asynBuf := new byte[F.ASYN_SIZE];
    }

    /** memcpy into asyn_buf at `at`; what does not fit is not copied. */
    method Append(chunk: seq<byte>)
      requires Valid()
      modifies this`bufLen, asynBuf
      ensures Valid()
      ensures var d := old(Stored()) + chunk; Stored() == if |d| <= F.ASYN_SIZE then d else d[..F.ASYN_SIZE]
    {
      var n := if bufLen + |chunk| <= F.ASYN_SIZE then |chunk| else F.ASYN_SIZE - bufLen;
      ghost var s := Stored();
      var i := 0;
      while i < n
        invariant 0 <= i <= n && bufLen == old(bufLen) && bufLen + n <= asynBuf.Length
        invariant asynBuf[..bufLen] == s && asynBuf[bufLen..bufLen + i] == chunk[..i]
      {
        asynBuf[bufLen + i] := chunk[i];
        i := i + 1;
      }
      bufLen := bufLen + n;
      assert asynBuf[..bufLen] == s + chunk[..n];
    }

    /** check_modbus_frame: the frames it hands to proc_sub_data. A first piece is stored unchecked, so
        one that completes no reply must not be longer than the buffer. */
    method CheckModbusFrame(chunk: seq<byte>) returns (delivered: seq<seq<byte>>)
      requires Valid()
      requires Stored() != [] || F.Complete(chunk) || |chunk| <= F.ASYN_SIZE
      modifies this`bufLen, asynBuf
      ensures Valid()
      ensures F.Outcome(Stored(), delivered) == F.Feed(old(Stored()), chunk)
    {
      delivered := [];
      ghost var s := Stored();
      ghost var d := s + chunk;
      if bufLen == 0 {
        assert d == chunk;
        if |chunk| >= 3 {
          if chunk[1] >= 0x80 {
            if 5 <= |chunk| {
              delivered := [chunk[..5]];
              assert F.Complete(d);
            } else {
              assert !F.Complete(d);
              Append(chunk);
            }
          } else {
            var count: int := chunk[2];
            if 5 + count <= |chunk| {
              delivered := [chunk[..5 + count]];
              assert F.Complete(d);
            } else {
              assert !F.Complete(d);
              Append(chunk);
            }
          }
        } else {
          assert !F.Complete(d);
          Append(chunk);
        }
      } else {
        assert s != [];
        Append(chunk);
        if bufLen == 256 {
          delivered := [asynBuf[..256]];
          assert asynBuf[..256] == d[..256];
        } else {
          assert asynBuf[..bufLen] == d && |d| < 256;
          if bufLen >= 3 {
            assert asynBuf[1] == asynBuf[..bufLen][1] && asynBuf[2] == asynBuf[..bufLen][2];
            if asynBuf[1] >= 0x80 {
              if bufLen >= 5 {
                assert F.Complete(d);
                delivered := [asynBuf[..5]];
                assert asynBuf[..5] == asynBuf[..bufLen][..5];
                bufLen := 0;
              } else {
                assert !F.Complete(d);
              }
            } else {
              var count: int := asynBuf[2];
              if bufLen >= 5 + count {
                assert F.Complete(d);
                delivered := [asynBuf[..5 + count]];
                assert asynBuf[..5 + count] == asynBuf[..bufLen][..5 + count];
                bufLen := 0;
              } else {
                assert !F.Complete(d);
              }
            }
          }
        }
      }
    }

    /** The loop of send_rs_frame on a shared line. */
    method AdvancePoll()
      requires Valid()
      modifies this`subId
      ensures Valid() && subId == P.NextPoll(Flags(tab), old(subId))
    {
      var j := 0;
      while j < |tab|
        invariant 0 <= j <= |tab| && -1 <= subId < |tab|
        invariant P.NextPoll(Flags(tab), old(subId)) == P.Scan(Flags(tab), subId, |tab| - j)
      {
        subId := subId + 1;
        subId := subId % |tab|;
        if tab[subId].flag {
          break;
        }
        j := j + 1;
      }
    }

    /** send_rs_frame: advances the poll on a shared line and writes the request, whose checksum
        makes the whole frame check to zero. */
    method SendRsFrame() returns (cmd: seq<bv8>)
      requires Valid()
      modifies this`subId, this`t10
      ensures Valid() && t10 == 2
      ensures subId == match line case Rs485 => P.NextPoll(Flags(tab), old(subId)) case Rs232 => old(subId)
      ensures |cmd| == 8
      ensures var d := tab[if line.Rs485? then subId else 0];
              cmd[..6] == [d.addr, d.dataType, d.start0, d.start1, 0, d.regCnt]
      ensures Crc16.Crc(cmd) == 0
    {
      hide Crc16.Crc, Crc16.Register, Crc16.Swap, Crc16.Result, Crc16.Upper, Crc16.Lower, P.NextPoll;
      var sub := 0;
      if line == Rs485 {
        AdvancePoll();
        sub := subId;
      }
      var body := Request(tab[sub]);
      var fcs := Crc16.GetCRC16(body);
      var c6, c7 := Crc16.Upper(fcs), Crc16.Lower(fcs);
      Crc16.ResidueIff(body, c6, c7);
      Crc16.ResultHalves(fcs);
      cmd := body + [c6, c7];
      assert cmd[..6] == body;
      t10 := 2;
    }
  }
}
