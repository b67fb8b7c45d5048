/**
 The lock on a chain, held by the chain itself or by one of the devices opened on it, and the claim on
 the link that goes with it from one holder to the next.
 */
module Locks {

  datatype Status =
    | Ok | AlreadyLocked | NotLocked | ServerActive | InvalidChain | InvalidOpen | InvalidParameter | Unimplemented
    | Failed(code: nat)

  /**
   What comes back from the server while one operation runs: whether a lock that was only assumed turns out
   to be refused (while the command is packed, or with the reply), and the outcome.
   */
  datatype Reply = Reply(refusedEarly: bool, refused: bool, status: Status)

  class Client {
    const version: nat
    /** Claims on the link that are not released. */
    var claims: int
    ghost var chains: set<Chain>
    ghost var opens: set<Open>
    /** Whose lock the claim is for. */
    ghost var holder: object?

    constructor (version: nat)
      ensures Conserved() && this.version == version && chains == {} && opens == {}
    {
      this.version := version;
      claims, chains, opens, holder := 0, {}, {}, null;
    }

    /** The link is claimed exactly if one chain or open has a lock, and never two have. */
    ghost predicate Conserved()
      reads this, chains, opens
    {
      && claims == (if holder == null then 0 else 1)
      && (holder == null || holder in chains || holder in opens)
      && (forall c :: c in chains ==> c.client == this && (c.locked <==> holder == c))
      && (forall o :: o in opens ==> o.client == this && o.chain in chains && (o.locked <==> holder == o))
    }

    /** The link can be claimed unless another thread keeps it or it is claimed already. */
    method TryClaim(free: bool) returns (ok: bool)
      modifies this`claims
      ensures ok <==> free && old(claims) == 0
      ensures claims == if ok then 1 else old(claims)
    {
      ok := free && claims == 0;
      if ok {
        claims := 1;
      }
    }

    method Release()
      modifies this`claims
      ensures claims == old(claims) - 1
    {
      claims := claims - 1;
    }

    /** Of any two locks one is the other. */
    lemma OneHolder()
      requires Conserved()
      ensures forall c, c' :: c in chains && c' in chains && c.locked && c'.locked ==> c == c'
      ensures forall o, o' :: o in opens && o' in opens && o.locked && o'.locked ==> o == o'
      ensures forall c, o :: c in chains && o in opens ==> !(c.locked && o.locked)
      ensures claims == 1 <==> (exists c :: c in chains && c.locked) || (exists o :: o in opens && o.locked)
    {
    }
  }

  class Chain {
    const client: Client
    const valid: bool
    var locked: bool

    constructor (client: Client, valid: bool)
      requires client.Conserved()
      modifies client
      ensures this.client == client && this.valid == valid && !locked
      ensures client.Conserved() && client.claims == old(client.claims) && client.chains == old(client.chains) + {this}
      ensures client.opens == old(client.opens) && client.holder == old(client.holder)
    {
      this.client, this.valid, locked := client, valid, false;
      new;
      client.chains := client.chains + {this};
    }

    /** What comes of an attempt to lock the chain. */
    static function Attempt(valid: bool, locked: bool, free: bool, claims: int, reply: Reply): (status: Status)
    {
      if !valid then InvalidChain
      else if locked then AlreadyLocked
      else if !free || claims != 0 then ServerActive
      else reply.status
    }

    method Lock(free: bool, reply: Reply) returns (status: Status)
      requires this in client.chains && client.Conserved()
      modifies this, client`claims, client`holder
      ensures client.Conserved()
      ensures status == Attempt(valid, old(locked), free, old(client.claims), reply)
      ensures (locked <==> old(locked) || status == Ok) && client.claims == (if status == Ok then 1 else old(client.claims))
    {
      if !valid {
        return InvalidChain;
      }
      if locked {
        return AlreadyLocked;
      }
      var ok := client.TryClaim(free);
      if !ok {
        return ServerActive;
      }
      status := reply.status;
      if status == Ok {
        locked := true;
        client.holder := this;
      } else {
        client.Release();
      }
    }

    /** The lock goes whatever the server says. */
    method Unlock(reply: Reply) returns (status: Status)
      requires this in client.chains && client.Conserved()
      modifies this, client`claims, client`holder
      ensures client.Conserved()
      ensures status == if !valid then InvalidChain else if !old(locked) then NotLocked else reply.status
      ensures valid && old(locked) ==> !locked && client.claims == 0
      ensures !valid || !old(locked) ==> client.claims == old(client.claims) && locked == old(locked)
    {
      if !valid {
        return InvalidChain;
      }
      if !locked {
        return NotLocked;
      }
      locked := false;
      client.holder := null;
      client.Release();
      status := reply.status;
    }
  }

  class Open {
    const chain: Chain
    const client: Client
    var locked: bool
    /** The lock was assumed to be given; it may turn out to be refused. */
    var assumed: bool
    var lockFail: bool
    var deferError: Status

    constructor (chain: Chain)
      requires chain in chain.client.chains && chain.client.Conserved()
      modifies chain.client
      ensures this.chain == chain && client == chain.client && !locked && !lockFail && deferError == Ok
      ensures client.Conserved() && client.claims == old(chain.client.claims) && client.opens == old(chain.client.opens) + {this}
      ensures client.chains == old(chain.client.chains) && client.holder == old(chain.client.holder)
    {
      this.chain, this.client := chain, chain.client;
      locked, assumed, lockFail, deferError := false, false, false, Ok;
      new;
      client.opens := client.opens + {this};
    }

    ghost predicate Ready()
      reads this, client, client.chains, client.opens
    {
      this in client.opens && client.Conserved()
    }

    /** An error kept back from before is given out once. */
    method PendingError() returns (status: Status)
      modifies this`deferError
      ensures status == old(deferError) && deferError == Ok
    {
      status, deferError := deferError, Ok;
    }

    /**
     A buffer for the command, of which there is always one (PipeRuns.BufferFound); making room in a full
     packet can bring the news that the lock was refused.
     */
    method GetTxMessage(reply: Reply)
      modifies this`lockFail
      ensures lockFail <==> old(lockFail) || (assumed && reply.refusedEarly)
    {
      if assumed && reply.refusedEarly {
        lockFail := true;
      }
    }

    /**
     Sends everything and waits; if the lock turns out to be refused, it goes and the claim with it. Behind
     a lock that was refused the server refuses everything.
     */
    method SendReceive(reply: Reply) returns (status: Status)
      modifies this`locked, this`assumed, this`lockFail, client`claims, client`holder
      ensures lockFail <==> old(lockFail) || (old(assumed) && reply.refused)
      ensures !assumed && status == (if old(locked) && lockFail && reply.status == Ok then Failed(0) else reply.status)
      ensures old(locked) && lockFail ==> !locked && client.claims == old(client.claims) - 1 && client.holder == null
      ensures !(old(locked) && lockFail) ==>
        locked == old(locked) && client.claims == old(client.claims) && client.holder == old(client.holder)
    {
      status := reply.status;
      if assumed && reply.refused {
        lockFail := true;
      }
      assumed := false;
      if locked && lockFail && status == Ok {
        status := Failed(0);
      }
      if locked && lockFail {
        locked := false;
        client.holder := null;
        client.Release();
      }
    }

    method LockedOk(assume_: bool)
      modifies this`locked, this`lockFail, this`assumed, client`holder
      ensures locked && !lockFail && assumed == assume_ && client.holder == this
    {
      locked, lockFail, assumed := true, false, assume_;
      client.holder := this;
    }

    /** What comes of an attempt to lock the device; a lock that is deferred is taken for granted. */
    static function Attempt(locked: bool, kept: Status, free: bool, claims: int, defer: bool, reply: Reply): (status: Status)
    {
      if locked then AlreadyLocked
      else if kept != Ok then kept
      else if !free || claims != 0 then ServerActive
      else if defer then Ok
      else reply.status
    }

    /** What the server says to a command that gives the lock up; it says no after it refused the lock. */
    static function Answered(lockFail: bool, reply: Reply): (status: Status)
    {
      if lockFail && reply.status == Ok then Failed(0) else reply.status
    }

    method Lock(free: bool, defer: bool, reply: Reply) returns (status: Status)
      requires Ready()
      modifies this, client`claims, client`holder
      ensures Ready()
      ensures lockFail ==> old(lockFail) || reply.refusedEarly || reply.refused
      ensures status == Attempt(old(locked), old(deferError), free, old(client.claims), defer, reply)
      ensures (locked <==> old(locked) || status == Ok) && client.claims == (if status == Ok then 1 else old(client.claims))
      ensures status == Ok ==> assumed == defer && !lockFail
      ensures deferError == if old(locked) then old(deferError) else Ok
    {
      if locked {
        return AlreadyLocked;
      }
      if deferError != Ok {
        status := PendingError();
        return;
      }
      var ok := client.TryClaim(free);
      if !ok {
        return ServerActive;
      }
      GetTxMessage(reply);
      if defer {
        status := Ok;
      } else {
        status := SendReceive(reply);
      }
      if status == Ok {
        LockedOk(defer);
      } else {
        client.Release();
      }
    }

    /** The lock goes, and the claim with it, once: even if it turns out only now that it was refused. */
    method Unlock(reply: Reply) returns (status: Status)
      requires Ready()
      modifies this, client`claims, client`holder
      ensures Ready() && !locked
      ensures lockFail ==> old(lockFail) || reply.refusedEarly || reply.refused
      ensures old(locked) ==> client.claims == 0
      ensures !old(locked) ==> client.claims == old(client.claims)
      ensures status == if !old(locked) then NotLocked
                        else if old(deferError) != Ok then old(deferError)
                        else Answered(lockFail, reply)
      ensures deferError == if old(locked) then Ok else old(deferError)
    {
      if !locked {
        return NotLocked;
      }
      if deferError != Ok {
        status := PendingError();
      } else {
        GetTxMessage(reply);
        status := SendReceive(reply);
      }
      if locked {
        locked := false;
        client.holder := null;
        client.Release();
      }
    }

    /** Whether handing the lock to another open gets as far as a command. */
    predicate Passes(to: Open)
      reads this, client
    {
      chain == to.chain && locked && client.version >= 2 && deferError == Ok
    }

    /** Hands the lock to another open of the chain. */
    method UnlockLock(to: Open, reply: Reply) returns (status: Status)
      requires Ready() && to in client.opens && to != this
      modifies this, to, client`claims, client`holder
      ensures Ready()
      ensures lockFail ==> old(lockFail) || reply.refusedEarly || reply.refused
      ensures to.lockFail ==> old(to.lockFail)
      ensures status == if chain != to.chain then InvalidParameter
                        else if !old(locked) then NotLocked
                        else if client.version < 2 then Unimplemented
                        else if old(deferError) != Ok then old(deferError)
                        else Answered(lockFail, reply)
      ensures old(Passes(to)) ==>
                !locked && (to.locked <==> status == Ok) && client.claims == (if status == Ok then 1 else 0)
      ensures !old(Passes(to)) ==>
                status != Ok && locked == old(locked) && to.locked == old(to.locked) && client.claims == old(client.claims)
    {
      if chain != to.chain {
        return InvalidParameter;
      }
      if !locked {
        return NotLocked;
      }
      assert !to.locked;
      if client.version < 2 {
        return Unimplemented;
      }
      if deferError != Ok {
        status := PendingError();
        return;
      }
      GetTxMessage(reply);
      status := SendReceive(reply);
      if locked {
        locked := false;
        if status == Ok {
          to.LockedOk(false);
        } else {
          client.holder := null;
          client.Release();
        }
      }
    }

    /** Whether there is a lock of the chain to take over. */
    predicate Takes(from: Chain)
      reads this, from
    {
      from.valid && from == chain && from.locked
    }

    /** Takes the lock over from the chain. */
    method UnlockChainLock(from: Chain, free: bool, first: Reply, reply: Reply) returns (status: Status)
      requires Ready() && from in client.chains
      modifies this, from, client`claims, client`holder
      ensures Ready()
      ensures lockFail ==> old(lockFail) || reply.refusedEarly || reply.refused
      ensures old(Takes(from)) && client.version >= 7 ==> status == reply.status
      ensures old(Takes(from)) && client.version < 7 ==>
                status == if first.status == Ok then Attempt(false, old(deferError), free, 0, false, reply) else first.status
      ensures old(Takes(from)) ==> !from.locked && (locked <==> status == Ok) && client.claims == (if locked then 1 else 0)
      ensures !old(Takes(from)) ==>
                && status == (if !from.valid then InvalidOpen else if from != chain then InvalidParameter else NotLocked)
                && locked == old(locked) && from.locked == old(from.locked) && client.claims == old(client.claims)
    {
      if !from.valid {
        return InvalidOpen;
      }
      if from != chain {
        return InvalidParameter;
      }
      if !from.locked {
        return NotLocked;
      }
      assert !locked;
      if client.version < 7 {
        status := from.Unlock(first);
        if status == Ok {
          status := Lock(free, false, reply);
        }
        return;
      }
      GetTxMessage(reply);
      status := SendReceive(reply);
      from.locked := false;
      if status == Ok {
        LockedOk(false);
      } else {
        client.holder := null;
        client.Release();
      }
    }

    /** Whether handing the lock to the chain gets as far as the server. */
    predicate Hands(to: Chain)
      reads this, client, to
    {
      to.valid && chain == to && locked && client.version >= 7 && deferError == Ok
    }

    /** Whether an old server is asked to unlock and to lock instead. */
    predicate HandsApart(to: Chain)
      reads this, client, to
    {
      to.valid && chain == to && locked && client.version < 7
    }

    /**
     Hands the lock to the chain. Unlike the others it does not look whether the lock is still there: when it
     turns out to have been refused the claim is released a second time.
     */
    method UnlockLockChain(to: Chain, free: bool, first: Reply, reply: Reply) returns (status: Status)
      requires Ready() && to in client.chains
      modifies this, to, client`claims, client`holder
      ensures this in client.opens
      ensures lockFail ==> old(lockFail) || first.refusedEarly || first.refused || reply.refusedEarly || reply.refused
      ensures client.Conserved() <==>
        !old(Hands(to)) || (!old(lockFail) && !(old(assumed) && (reply.refusedEarly || reply.refused)))
      ensures old(Hands(to)) && client.Conserved() ==>
                status == reply.status && !locked && (to.locked <==> status == Ok) && client.claims == (if status == Ok then 1 else 0)
      ensures old(Hands(to)) && !client.Conserved() ==>
                status != Ok && !locked && !to.locked && client.claims == -1
      ensures !old(Hands(to)) && !old(HandsApart(to)) ==>
                && status == (if !to.valid then InvalidOpen else if chain != to then InvalidParameter
                              else if !old(locked) then NotLocked else old(deferError))
                && locked == old(locked) && to.locked == old(to.locked) && client.claims == old(client.claims)
      ensures old(HandsApart(to)) ==>
                && status == (if old(deferError) != Ok then old(deferError)
                              else if Answered(lockFail, first) != Ok then Answered(lockFail, first)
                              else Chain.Attempt(true, false, free, 0, reply))
                && !locked && (to.locked <==> status == Ok) && client.claims == (if status == Ok then 1 else 0)
    {
      if !to.valid {
        return InvalidOpen;
      }
      if chain != to {
        return InvalidParameter;
      }
      if !locked {
        return NotLocked;
      }
      assert !to.locked;
      if client.version < 7 {
        status := Unlock(first);
        if status == Ok {
          status := to.Lock(free, reply);
        }
        return;
      }
      if deferError != Ok {
        status := PendingError();
        return;
      }
      GetTxMessage(reply);
      status := SendReceive(reply);
      locked := false;
      if status == Ok {
        to.locked := true;
        client.holder := to;
      } else {
        client.holder := null;
        client.Release();
      }
    }
  }

  // ------------------------------------------------------------- whole runs

  datatype Op =
    | LockChain(c: Chain, free: bool, reply: Reply)
    | UnlockChain(c: Chain, reply: Reply)
    | LockOpen(o: Open, free: bool, defer: bool, reply: Reply)
    | UnlockOpen(o: Open, reply: Reply)
    | PassOn(o: Open, to: Open, reply: Reply)
    | FromChain(o: Open, c: Chain, free: bool, first: Reply, reply: Reply)
    | ToChain(o: Open, c: Chain, free: bool, first: Reply, reply: Reply)

  /** The server's part goes as hoped: no assumed lock is refused. */
  predicate Smooth(op: Op)
  {
    && !op.reply.refusedEarly && !op.reply.refused
    && (op.ToChain? ==> !op.first.refusedEarly && !op.first.refused)
  }

  ghost predicate Known(client: Client, op: Op)
    reads client
  {
    && ((op.LockChain? || op.UnlockChain? || op.FromChain? || op.ToChain?) ==> op.c in client.chains)
    && (!(op.LockChain? || op.UnlockChain?) ==> op.o in client.opens)
    && (op.PassOn? ==> op.to in client.opens && op.to != op.o)
  }

  /** The one way to lose count of the claims. */
  predicate Slips(op: Op)
    reads if op.ToChain? then {op.o, op.o.client, op.c} else {}
  {
    && op.ToChain? && op.o.Hands(op.c)
    && (op.o.lockFail || (op.o.assumed && (op.reply.refusedEarly || op.reply.refused)))
  }

  method Perform(client: Client, op: Op)
    requires client.Conserved() && Known(client, op)
    modifies client`claims, client`holder, client.chains, client.opens
    ensures client.Conserved() <==> !old(Slips(op))
    ensures Smooth(op) ==> forall o :: o in client.opens && o.lockFail ==> old(o.lockFail)
  {
    match op
    case LockChain(c, free, reply) => var _ := c.Lock(free, reply);
    case UnlockChain(c, reply) => var _ := c.Unlock(reply);
    case LockOpen(o, free, defer, reply) => var _ := o.Lock(free, defer, reply);
    case UnlockOpen(o, reply) => var _ := o.Unlock(reply);
    case PassOn(o, to, reply) => var _ := o.UnlockLock(to, reply);
    case FromChain(o, c, free, first, reply) => var _ := o.UnlockChainLock(c, free, first, reply);
    case ToChain(o, c, free, first, reply) => var _ := o.UnlockLockChain(c, free, first, reply);
  }

  /**
   Any sequence of operations, up to the first that slips. If the server's part goes as hoped, none does:
   the link stays claimed exactly while one chain or open has the lock.
   */
  method Run(client: Client, ops: seq<Op>) returns (n: nat)
    requires client.Conserved() && (forall op :: op in ops ==> Known(client, op))
    requires forall o :: o in client.opens ==> !o.lockFail
    modifies client`claims, client`holder, client.chains, client.opens
    ensures n <= |ops| && (client.Conserved() <==> n == |ops|)
    ensures n < |ops| ==> ops[n].ToChain? && exists op :: op in ops && !Smooth(op)
  {
    n := 0;
    while n < |ops|
      invariant n <= |ops| && client.Conserved()
      invariant forall op :: op in ops ==> Known(client, op)
      invariant (forall op :: op in ops ==> Smooth(op)) ==> forall o :: o in client.opens ==> !o.lockFail
    {
      var op := ops[n];
      assert op in ops;
      var slips := Slips(op);
      Perform(client, op);
      if slips {
        return;
      }
      n := n + 1;
    }
  }
}
