// The message stream the dialer and the handshake talk over
// (tube.TubedConn in src/pkg/util/tube): one gob-encoded struct per Encode
// and per Decode. The model keeps the structs as values: what was sent,
// the peer's whole future input, and how many more structs it will take.
module Tubes {
  import opened Base
  import Sys

  /** The wire structs exchanged over a tube. */
  datatype Msg =
    | Greet(build: string, version: string)                        // dialer.U_Greet
    | Orient(order: u32, session: u32)                             // dialer.U_Orient
    | Subject(subject: string)                                     // dialer.U_Subject
    | Cargo(cargo: seq<byte>)                                      // dialer.U_Cargo
    | HelloPub(n: seq<byte>, e: i32)                               // sys.U_HelloKey (its U_RSAPubKey)
    | KeyHalves(halves: seq<byte>)                                 // sys.U_KeyHalves
    | ConnM1(dialKey: Sys.UDialKey, challenge: seq<byte>)          // sys.U_AuthConn_M1
    | AccM1(challenge: seq<byte>)                                  // sys.U_AuthAcc_M1
    | ConnM2(resp: seq<byte>)                                      // sys.U_AuthConn_M2
    | AccM2(dialKey: Sys.UDialKey, resp: seq<byte>)                // sys.U_AuthAcc_M2

  /** The struct type a Decode call is given to fill. */
  datatype Kind = KGreet | KOrient | KSubject | KCargo | KHelloPub | KKeyHalves | KConnM1 | KAccM1 | KConnM2 | KAccM2

  function KindOf(m: Msg): Kind
  {
    match m
    case Greet(_, _) => KGreet
    case Orient(_, _) => KOrient
    case Subject(_) => KSubject
    case Cargo(_) => KCargo
    case HelloPub(_, _) => KHelloPub
    case KeyHalves(_) => KKeyHalves
    case ConnM1(_, _) => KConnM1
    case AccM1(_) => KAccM1
    case ConnM2(_) => KConnM2
    case AccM2(_, _) => KAccM2
  }

  /** A completed step on a tube: a struct written, or a struct of a kind read. */
  datatype Op = Sent(m: Msg) | Received(k: Kind)

  /** The error a decoder reports for a struct of the wrong type. */
  const TypeMismatch: Error := Failure("gob: type mismatch")

  /** What Decode into a struct of kind k yields on a tube in this state. */
  function Decoded(closed: bool, inbox: seq<Msg>, k: Kind): (r: Result<Msg>)
    ensures r.Ok? <==> !closed && inbox != [] && KindOf(inbox[0]) == k
    ensures r.Ok? ==> r.value == inbox[0]
  {
    if closed then Err(EBADF)
    else if inbox == [] then Err(EOF)
    else if KindOf(inbox[0]) != k then Err(TypeMismatch)
    else Ok(inbox[0])
  }

  /** The input left after a Decode: a message is consumed unless the tube is closed or drained. */
  function AfterDecode(closed: bool, inbox: seq<Msg>): seq<Msg>
  {
    if closed || inbox == [] then inbox else inbox[1..]
  }

  /** The error Encode reports: EBADF once closed, EIO once the peer takes no more. */
  function Encoded(closed: bool, room: nat): (r: Option<Error>)
    ensures r.None? <==> !closed && room > 0
  {
    if closed then Some(EBADF) else if room == 0 then Some(EIO) else None
  }

  /**
   * A tube: the structs written so far, the structs the peer will send,
   * how many more structs the peer will take, and the stream's state.
   */
  class Tube {
    var sent: seq<Msg>
    var inbox: seq<Msg>
    var room: nat
    var closed: bool
    /** The RC4 read and write keys, once the tube is encrypted (tube.NewRC4Tube). */
    var keys: Option<(seq<byte>, seq<byte>)>
    /** The successful Encodes and Decodes, in the order they happened. */
    ghost var trace: seq<Op>

    /** tube.NewTube over a stream the peer will feed with inbox. */
    constructor (inbox: seq<Msg>, room: nat)
      ensures sent == [] && this.inbox == inbox && this.room == room && !closed && keys.None? && trace == []
    {
      sent := [];
      trace := [];
      this.inbox := inbox;
      this.room := room;
      closed := false;
      keys := None;
    }

    /** Encode: writes m, or reports why it could not. */
    method Encode(m: Msg) returns (err: Option<Error>)
      modifies this
      ensures err == Encoded(old(closed), old(room))
      ensures sent == (if err.None? then old(sent) + [m] else old(sent))
      ensures room == (if err.None? then old(room) - 1 else old(room))
      ensures trace == (if err.None? then old(trace) + [Sent(m)] else old(trace))
      ensures inbox == old(inbox) && closed == old(closed) && keys == old(keys)
    {
      err := Encoded(closed, room);
      if err.None? {
        sent := sent + [m];
        room := room - 1;
        trace := trace + [Sent(m)];
      }
    }

    /** Decode: reads the next struct into one of kind k. */
    method Decode(k: Kind) returns (r: Result<Msg>)
      modifies this
      ensures r == Decoded(old(closed), old(inbox), k)
      ensures inbox == AfterDecode(old(closed), old(inbox))
      ensures trace == (if r.Ok? then old(trace) + [Received(k)] else old(trace))
      ensures sent == old(sent) && room == old(room) && closed == old(closed) && keys == old(keys)
    {
      r := Decoded(closed, inbox, k);
      inbox := AfterDecode(closed, inbox);
      if r.Ok? {
        trace := trace + [Received(k)];
      }
    }

    /** Close: safe to repeat. */
    method Close()
      modifies this
      ensures closed
      ensures sent == old(sent) && inbox == old(inbox) && room == old(room) && keys == old(keys) && trace == old(trace)
    {
      closed := true;
    }

    /** tube.NewRC4Tube: the same stream, from now on enciphered with the read key rk and the write key wk. */
    method Encrypt(rk: seq<byte>, wk: seq<byte>)
      modifies this
      ensures keys == Some((rk, wk))
      ensures sent == old(sent) && inbox == old(inbox) && room == old(room) && closed == old(closed) && trace == old(trace)
    {
      keys := Some((rk, wk));
    }
  }
}
