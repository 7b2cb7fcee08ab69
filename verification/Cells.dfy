/** Fixed 1280-byte cells: [cid u32][cmd u8][flags u8][len u16][payload][zero padding]. */
module Cells {
  import opened Wrappers
  import opened Octets
  import opened Crypto

  const CELL := 1280
  const CELL_HDR := 8
  const CELL_DATA := 1272
  const MSG_MAX := 1024

  datatype NetError = BadSize(len: nat) | BadCmd(v: byte) | TooShort | Timeout | NoSession | CryptoFailed(e: CryptoError)

  datatype Cmd = Create | Created | Destroy | Relay | Padding
  datatype RCmd = Echo | Data | Drop

  function CmdByte(c: Cmd): byte {
    match c
    case Create => 1
    case Created => 2
    case Destroy => 3
    case Relay => 4
    case Padding => 5
  }

  function CmdFrom(v: byte): (r: Result<Cmd, NetError>)
    ensures forall c :: r == Ok(c) <==> v == CmdByte(c)
  {
    match v
    case 1 => Ok(Create)
    case 2 => Ok(Created)
    case 3 => Ok(Destroy)
    case 4 => Ok(Relay)
    case 5 => Ok(Padding)
    case _ => Err(BadCmd(v))
  }

  function RCmdByte(c: RCmd): byte {
    match c
    case Echo => 1
    case Data => 2
    case Drop => 3
  }

  function RCmdFrom(v: byte): (r: Result<RCmd, NetError>)
    ensures forall c :: r == Ok(c) <==> v == RCmdByte(c)
  {
    match v
    case 1 => Ok(Echo)
    case 2 => Ok(Data)
    case 3 => Ok(Drop)
    case _ => Err(BadCmd(v))
  }

  datatype Cell = Cell(cid: u32, cmd: Cmd, flags: byte, payload: Bytes)

  /** `encode` panics on anything larger. */
  predicate Fits(c: Cell) {
    |c.payload| <= CELL_DATA
  }

  function HeaderOf(c: Cell): (b: Bytes)
    requires Fits(c)
    ensures |b| == CELL_HDR
  {
    Le32(c.cid) + [CmdByte(c.cmd), c.flags] + Le16(|c.payload|)
  }

  /** The wire form of a cell. */
  function Encoded(c: Cell): (b: Bytes)
    requires Fits(c)
    ensures |b| == CELL
  {
    HeaderOf(c) + c.payload + Zeros(CELL_DATA - |c.payload|)
  }

  function Decoded(b: Bytes): Result<Cell, NetError> {
    if |b| != CELL then Err(BadSize(|b|))
    else
      var len := Get16(b[6..8]);
      if len > CELL_DATA then Err(TooShort)
      else
        var cmd := CmdFrom(b[4]);
        if cmd.Err? then Err(cmd.error)
        else Ok(Cell(Get32(b[..4]), cmd.value, b[5], b[8..8 + len]))
  }

  /** `Cell::encode`, filling a zeroed buffer. */
  method Encode(c: Cell) returns (buf: array<byte>)
    requires Fits(c)
    ensures fresh(buf) && buf[..] == Encoded(c)
  {
    buf := new byte[CELL](_ => 0);
    var head := Le32(c.cid) + [CmdByte(c.cmd), c.flags] + Le16(|c.payload|);
    forall i | 0 <= i < CELL_HDR {
      buf[i] := head[i];
    }
    forall i | 0 <= i < |c.payload| {
      buf[CELL_HDR + i] := c.payload[i];
    }
  }

  /** The header and payload of a cell determine it, whatever the padding holds. */
  lemma DecodedPrefix(c: Cell, pad: Bytes)
    requires Fits(c) && |pad| == CELL_DATA - |c.payload|
    ensures Decoded(HeaderOf(c) + c.payload + pad) == Ok(c)
  {
    var b := HeaderOf(c) + c.payload + pad;
    assert b[..4] == Le32(c.cid);
    assert b[6..8] == Le16(|c.payload|);
    assert b[8..8 + |c.payload|] == c.payload;
    assert Le16(Get16(b[6..8])) == Le16(|c.payload|);
    assert Le32(Get32(b[..4])) == Le32(c.cid);
  }

  /** Decoding accepts exactly the 1280-byte strings that agree with an encoding up to the padding. */
  lemma DecodedExactly(b: Bytes, c: Cell)
    ensures Decoded(b) == Ok(c) <==>
            && Fits(c) && |b| == CELL
            && b[..CELL_HDR + |c.payload|] == Encoded(c)[..CELL_HDR + |c.payload|]
  {
    if Fits(c) {
      var n := CELL_HDR + |c.payload|;
      assert Encoded(c)[..n] == HeaderOf(c) + c.payload;
      if |b| == CELL && b[..n] == Encoded(c)[..n] {
        assert b == HeaderOf(c) + c.payload + b[n..];
        DecodedPrefix(c, b[n..]);
      }
      if Decoded(b) == Ok(c) {
        assert b[..4] == Le32(c.cid);
        assert b[6..8] == Le16(|c.payload|);
        assert b[..8] == b[..4] + [b[4], b[5]] + b[6..8];
        assert b[..n] == b[..8] + b[8..n];
      }
    }
  }

  /** Why bytes are refused as a cell: their length, the length they claim, or their command, in this order. */
  lemma RefusedExactly(b: Bytes)
    ensures if |b| != 1280 then Decoded(b) == Err(BadSize(|b|))
            else if FromLe(b[6..8]) > 1272 then Decoded(b) == Err(TooShort)
            else if b[4] !in {1, 2, 3, 4, 5} then Decoded(b) == Err(BadCmd(b[4]))
            else Decoded(b).Ok?
  {
    if |b| == CELL {
      assert FromLe(Le16(Get16(b[6..8]))) == Get16(b[6..8]);
    }
  }

  /** A cell that fits survives the wire. */
  lemma WireIdentity(c: Cell)
    requires Fits(c)
    ensures Decoded(Encoded(c)) == Ok(c)
  {
    DecodedPrefix(c, Zeros(CELL_DATA - |c.payload|));
  }
}
