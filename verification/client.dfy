/** The bookkeeping of the RPC client (geerpc/client.go): sequence numbers,
    the table of calls waiting for a reply, the two flags that make the client
    unusable, and the defaulting of the connection options. */
module RpcClient {
  import opened Wrappers

  const ErrShutdown: string := "connection is shut down"
  const ErrTooManyOptions: string := "number of options is more than 1"
  /** The largest `uint64`. */
  const MaxUint64: nat := 0xFFFF_FFFF_FFFF_FFFF

  /** `Call`: one RPC in flight; the client sets its number and its error. */
  class Call {
    var seqNum: nat
    const serviceMethod: string
    var error: Option<string>

    constructor (serviceMethod: string)
      ensures this.serviceMethod == serviceMethod && seqNum == 0 && error == None
    {
      this.serviceMethod := serviceMethod;
      seqNum := 0;
      error := None;
    }
  }

  /** `Option`: the options sent when a connection opens. */
  class Options {
    var magicNumber: int
    var codecType: string

    constructor (magicNumber: int, codecType: string)
      ensures this.magicNumber == magicNumber && this.codecType == codecType
    {
      this.magicNumber := magicNumber;
      this.codecType := codecType;
    }
  }

  /** `parseOptions`: no option or a nil first option gives the defaults;
      more than one option is an error; otherwise the single option, updated in
      place to carry the default magic number, and the default codec when it
      names none. */
  method ParseOptions(opts: seq<Options?>, defaults: Options) returns (opt: Options?, err: Option<string>)
    modifies if |opts| == 1 && opts[0] != null then {opts[0]} else {}
    ensures |opts| == 0 || opts[0] == null ==> opt == defaults && err == None
    ensures |opts| > 1 && opts[0] != null ==> opt == null && err == Some(ErrTooManyOptions)
    ensures |opts| == 1 && opts[0] != null ==>
      && opt == opts[0] && err == None
      && opt.magicNumber == old(defaults.magicNumber)
      && opt.codecType == (if old(opts[0].codecType) == "" then old(defaults.codecType) else old(opts[0].codecType))
  {
    if |opts| == 0 || opts[0] == null {
      return defaults, None;
    }
    if |opts| != 1 {
      return null, Some(ErrTooManyOptions);
    }
    opt := opts[0];
    var magic, codec := defaults.magicNumber, defaults.codecType;
    opt.magicNumber := magic;
    if opt.codecType == "" {
      opt.codecType := codec;
    }
    err := None;
  }

  /** `Client`: the next sequence number, the calls waiting for a reply keyed by
      their number, and whether the user closed the client (`closing`) or an
      error stopped it (`shutdown`).  `issued` records, in order, every number
      the client has handed out. */
  class Client {
    var seqNum: nat
    var pending: map<nat, Call>
    var closing: bool
    var shutdown: bool
    ghost var issued: seq<nat>

    /** Numbers are handed out strictly increasing from 1, always below `seqNum`,
        which stays within `uint64`; only issued numbers are pending. */
    ghost predicate Valid()
      reads this
    {
      && 1 <= seqNum <= MaxUint64
      && (forall i :: 0 <= i < |issued| ==> 0 < issued[i] < seqNum)
      && (forall i, j :: 0 <= i < j < |issued| ==> issued[i] < issued[j])
      && (forall k :: k in pending ==> k in issued)
    }

    /** `NewClientCode`: numbering starts at 1 (0 marks an invalid call),
        nothing is pending and the client is usable. */
    constructor ()
      ensures Valid()
      ensures seqNum == 1 && pending == map[] && !closing && !shutdown && issued == []
    {
      seqNum := 1;
      pending := map[];
      closing := false;
      shutdown := false;
      issued := [];
    }

    /** `IsAvailable`: usable until closed or shut down; unusable exactly when
        either has happened. */
    predicate IsAvailable(): (r: bool)
      reads this
      ensures !r <==> closing || shutdown
    {
      !shutdown && !closing
    }

    /** `Close`: the first call marks the client closing and returns what
        closing the codec returned; every later call returns `ErrShutdown`.
        Either way the client is no longer available. */
    method Close(codecClose: Option<string>) returns (err: Option<string>)
      modifies this`closing
      ensures closing && !IsAvailable()
      ensures old(closing) ==> err == Some(ErrShutdown)
      ensures !old(closing) ==> err == codecClose
    {
      if closing {
        return Some(ErrShutdown);
      }
      closing := true;
      return codecClose;
    }

    /** `registerCall`: on an unusable client, `ErrShutdown` and no change;
        otherwise the call gets the current number, is stored under it, and the
        number advances.  The number is fresh: above every number issued before
        and not already pending. */
    method RegisterCall(call: Call) returns (number: nat, err: Option<string>)
      requires Valid() && seqNum < MaxUint64
      modifies this`seqNum, this`pending, this`issued, call`seqNum
      ensures Valid()
      ensures err.None? <==> old(IsAvailable())
      ensures !old(IsAvailable()) ==>
        && number == 0 && err == Some(ErrShutdown)
        && seqNum == old(seqNum) && pending == old(pending) && issued == old(issued) && call.seqNum == old(call.seqNum)
      ensures old(IsAvailable()) ==>
        && number == old(seqNum) && call.seqNum == number && seqNum == number + 1
        && pending == old(pending)[number := call] && issued == old(issued) + [number]
        && number !in old(pending)
        && (forall i :: 0 <= i < |old(issued)| ==> old(issued)[i] < number)
    {
      if closing || shutdown {
        return 0, Some(ErrShutdown);
      }
      number := seqNum;
      call.seqNum := number;
      pending := pending[number := call];
      issued := issued + [number];
      seqNum := seqNum + 1;
      err := None;
    }

    /** `removeCall`: the call stored under the number (nil when none) and the
        table without that entry; nothing else changes. */
    method RemoveCall(number: nat) returns (call: Call?)
      requires Valid()
      modifies this`pending
      ensures Valid()
      ensures number in old(pending) ==> call == old(pending)[number]
      ensures number !in old(pending) ==> call == null
      ensures pending == old(pending) - {number}
    {
      call := if number in pending then pending[number] else null;
      pending := pending - {number};
    }

    /** `terminalCalls`: marks the client shut down and gives every pending call
        the error, leaving them in the table. */
    method TerminalCalls(err: string)
      modifies this`shutdown, pending.Values
      ensures shutdown && !IsAvailable() && pending == old(pending)
      ensures forall c :: c in pending.Values ==> c.error == Some(err)
      ensures forall c :: c in pending.Values ==> c.seqNum == old(c.seqNum)
    {
      shutdown := true;
      var left := pending.Keys;
      while left != {}
        invariant shutdown && left <= pending.Keys
        invariant forall k :: k in pending.Keys - left ==> pending[k].error == Some(err)
        invariant forall c :: c in pending.Values ==> c.seqNum == old(c.seqNum)
        decreases left
      {
        var k :| k in left;
        pending[k].error := Some(err);
        left := left - {k};
      }
    }
  }
}
