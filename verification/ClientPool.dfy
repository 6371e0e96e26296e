/** The client pool: a buffered channel of clients, filled once. */
module ClientPool {
  type Client = nat

  class ClientPool {
    const capacity: nat
    var clients: seq<Client>
    /** Clients that a full pool would not take back, and clients drained by `Close`. */
    var closed: seq<Client>

    ghost predicate Valid()
      reads this
    {
      |clients| <= capacity
    }

    constructor (made: seq<Client>)
      ensures Valid() && capacity == |made| && clients == made && closed == []
    {
      capacity, clients, closed := |made|, made, [];
    }

    /** Receives from the channel; the caller waits until a client is there. */
    method Get() returns (c: Client)
      requires Valid() && clients != []
      modifies this`clients
      ensures Valid() && old(clients) == [c] + clients
    {
      c := clients[0];
      clients := clients[1..];
    }

    method Put(c: Client)
      requires Valid()
      modifies this
      ensures Valid()
      ensures if |old(clients)| < capacity then clients == old(clients) + [c] && closed == old(closed)
              else clients == old(clients) && closed == old(closed) + [c]
    {
      if |clients| < capacity {
        clients := clients + [c];
      } else {
        closed := closed + [c];
      }
    }

    method Close()
      requires Valid()
      modifies this
      ensures Valid() && clients == [] && closed == old(closed) + old(clients)
    {
      while |clients| > 0
        invariant Valid() && closed + clients == old(closed) + old(clients)
        decreases |clients|
      {
        var c := Get();
        closed := closed + [c];
      }
    }
  }

  // ---------------------------------------------------------------- runs

  /** `held` are the clients taken and not yet put back. */
  datatype Pool = Pool(capacity: nat, clients: seq<Client>, held: multiset<Client>, closed: seq<Client>)

  datatype Move = Get | Put(client: Client)

  /** A get waits while the pool is empty; a put returns a client that was taken. */
  predicate CanMove(p: Pool, m: Move) {
    match m
    case Get => p.clients != []
    case Put(c) => c in p.held
  }

  function MoveOnce(p: Pool, m: Move): Pool {
    match m
    case Get =>
      if p.clients == [] then p
      else p.(clients := p.clients[1..], held := p.held + multiset{p.clients[0]})
    case Put(c) =>
      var q := p.(held := p.held - multiset{c});
      if |p.clients| < p.capacity then q.(clients := p.clients + [c]) else q.(closed := p.closed + [c])
  }

  predicate Possible(p: Pool, moves: seq<Move>)
    decreases |moves|
  {
    moves == [] || (CanMove(p, moves[0]) && Possible(MoveOnce(p, moves[0]), moves[1..]))
  }

  function RunMoves(p: Pool, moves: seq<Move>): Pool
    decreases |moves|
  {
    if moves == [] then p else RunMoves(MoveOnce(p, moves[0]), moves[1..])
  }

  /** The very same clients are in the pool or in use, and none has been closed. */
  ghost predicate Conserved(p: Pool, made: seq<Client>) {
    && p.capacity == |made| && p.closed == []
    && multiset(p.clients) + p.held == multiset(made)
  }

  lemma MoveConserves(p: Pool, m: Move, made: seq<Client>)
    requires Conserved(p, made) && CanMove(p, m)
    ensures Conserved(MoveOnce(p, m), made)
    ensures m.Put? ==> |p.clients| < p.capacity
  {
    assert |multiset(p.clients)| + |p.held| == |multiset(made)|;
    if m.Get? {
      assert p.clients == [p.clients[0]] + p.clients[1..];
    }
  }

  /** A put of any client, taken or not, leaves it in the pool or closed, and the pool no fuller than its capacity. */
  lemma PutKeepsOrCloses(p: Pool, c: Client)
    requires |p.clients| <= p.capacity
    ensures
      var q := MoveOnce(p, Put(c));
      && multiset(q.clients) + multiset(q.closed) == multiset(p.clients) + multiset(p.closed) + multiset{c}
      && |q.clients| <= p.capacity && (|p.clients| < p.capacity ==> q.closed == p.closed)
  {
  }

  /** The clients that the gets take, in their order. */
  function Taken(p: Pool, moves: seq<Move>): seq<Client>
    decreases |moves|
  {
    if moves == [] then [] else
      (if moves[0].Get? && p.clients != [] then [p.clients[0]] else []) + Taken(MoveOnce(p, moves[0]), moves[1..])
  }

  /** The clients that the puts bring back, in their order. */
  function Returned(moves: seq<Move>): seq<Client> {
    if moves == [] then [] else (if moves[0].Put? then [moves[0].client] else []) + Returned(moves[1..])
  }

  /** First in, first out: clients are taken in the order in which they were made and returned. */
  lemma {:induction false} FirstInFirstOut(p: Pool, moves: seq<Move>, made: seq<Client>)
    requires Conserved(p, made) && Possible(p, moves)
    ensures Taken(p, moves) + RunMoves(p, moves).clients == p.clients + Returned(moves)
    decreases |moves|
  {
    if moves != [] {
      MoveConserves(p, moves[0], made);
      FirstInFirstOut(MoveOnce(p, moves[0]), moves[1..], made);
      var first := if moves[0].Get? then [p.clients[0]] else [];
      var rest := Taken(MoveOnce(p, moves[0]), moves[1..]);
      assert first + rest + RunMoves(p, moves).clients == first + (rest + RunMoves(p, moves).clients);
    }
  }

  /**
   * In every run that returns only what it took, every client made is either in the pool or in
   * use: a put never finds the pool full, and no client is ever closed by it.
   */
  lemma {:induction false} ClientsAreConserved(p: Pool, moves: seq<Move>, made: seq<Client>)
    requires Conserved(p, made) && Possible(p, moves)
    ensures Conserved(RunMoves(p, moves), made)
    decreases |moves|
  {
    if moves != [] {
      MoveConserves(p, moves[0], made);
      ClientsAreConserved(MoveOnce(p, moves[0]), moves[1..], made);
    }
  }
}
