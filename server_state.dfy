/**
 * The state of EchoServer's selector loop as a value, and what the loop does
 * to it: the effect of each branch of the per-key `if / else if` chain with
 * its `catch (IOException)`, the inner `while (iterator.hasNext())` loop as a
 * fold of those effects over the selected keys, and the outer `while (true)`
 * loop as a fold over the selector's wakeups.
 *
 * What the operating system decides (which keys are ready, how many bytes a
 * socket holds or takes, whether an I/O call fails) arrives as data: each
 * selected key carries the outcome of whichever channel call its handler makes.
 */
module ServerState {
  import opened BufferModel
  import opened EchoProtocol
  import opened Dispatch

  /** A selection key: the listening channel's, or the one of the client accepted as number `id`. */
  datatype Key = Listener | Client(id: nat)

  /** How `server.accept()` and the registration after it turn out. */
  datatype AcceptResult =
    | NewConnection         // a client channel, registered for OP_READ | OP_WRITE
    | NoPendingConnection   // accept() returns null: the NullPointerException that follows is not caught
    | AcceptFailed          // an IOException from accept, configureBlocking or register

  /** How `client.read(buffer)` turns out. */
  datatype ReadResult =
    | Arrived(available: seq<byte>)   // the bytes the socket holds; as many as fit are transferred
    | ReadEndOfStream                 // read returns -1
    | ReadFailed                      // an IOException

  /** How `client.write(buffer)` turns out. */
  datatype WriteResult =
    | Takes(accept: nat)   // the socket takes up to `accept` bytes
    | WriteFailed          // an IOException

  /** One member of the selected-key set, with the outcome of the channel call its handler makes. */
  datatype SelectedKey = SelectedKey(key: Key, ops: ReadyOps, accept: AcceptResult, read: ReadResult, write: WriteResult)

  /** One return from `selector.select()`. */
  datatype Wakeup = SelectFailed | Selected(ready: seq<SelectedKey>)

  /**
   * What a selector can report: a set (no key twice); the listening key only
   * as acceptable (its interest set is OP_ACCEPT), a client key never as acceptable.
   */
  predicate Reportable(s: seq<SelectedKey>)
  {
    && (forall i, j | 0 <= i < j < |s| :: s[i].key != s[j].key)
    && (forall i | 0 <= i < |s| :: KeyOpsAgree(s[i]))
  }

  predicate KeyOpsAgree(sk: SelectedKey)
  {
    match sk.key
    case Listener => sk.ops == ReadyOps(true, false, false)
    case Client(_) => !sk.ops.acceptable
  }

  /** Whether key `k` is registered while the listening channel is open or not and `ids` are the open clients. */
  predicate IsRegistered(k: Key, listening: bool, ids: set<nat>)
  {
    match k
    case Listener => listening
    case Client(id) => id in ids
  }

  /**
   * The keys a selector reports among `ready`: those still registered with
   * it, in the same order.
   */
  function RegisteredAmong(ready: seq<SelectedKey>, listening: bool, ids: set<nat>): (r: seq<SelectedKey>)
    ensures |r| <= |ready|
    ensures forall x :: x in r <==> x in ready && IsRegistered(x.key, listening, ids)
    decreases |ready|
  {
    if ready == [] then []
    else if IsRegistered(ready[0].key, listening, ids) then [ready[0]] + RegisteredAmong(ready[1..], listening, ids)
    else RegisteredAmong(ready[1..], listening, ids)
  }

  /** What is left of a report after its first key is still a report, without that key. */
  lemma ReportableTail(s: seq<SelectedKey>)
    requires Reportable(s) && |s| > 0
    ensures Reportable(s[1..])
    ensures forall i | 0 <= i < |s| - 1 :: s[1..][i].key != s[0].key
  {
    var tail := s[1..];
    forall i, j | 0 <= i < j < |tail| ensures tail[i].key != tail[j].key {
      assert tail[i] == s[i + 1] && tail[j] == s[j + 1];
    }
    forall i | 0 <= i < |tail| ensures KeyOpsAgree(tail[i]) && tail[i].key != s[0].key {
      assert tail[i] == s[i + 1];
    }
  }

  /** Dropping the keys that are no longer registered keeps a report a set of agreeing keys. */
  lemma {:induction false} RegisteredAmongReportable(ready: seq<SelectedKey>, listening: bool, ids: set<nat>)
    requires Reportable(ready)
    ensures Reportable(RegisteredAmong(ready, listening, ids))
    decreases |ready|
  {
    if ready != [] {
      var tail := ready[1..];
      ReportableTail(ready);
      RegisteredAmongReportable(tail, listening, ids);
      var rest := RegisteredAmong(tail, listening, ids);
      if IsRegistered(ready[0].key, listening, ids) {
        var r := [ready[0]] + rest;
        forall i, j | 0 <= i < j < |r| ensures r[i].key != r[j].key {
          if i == 0 {
            assert r[j] in tail;
            var k :| 0 <= k < |tail| && tail[k] == r[j];
            assert ready[k + 1] == r[j];
          } else {
            assert r[i] == rest[i - 1] && r[j] == rest[j - 1];
          }
        }
        forall i | 0 <= i < |r| ensures KeyOpsAgree(r[i]) {
          if i > 0 {
            assert r[i] == rest[i - 1];
          }
        }
      }
    }
  }

  /** Every byte read from one connection, and every byte written back to it. */
  datatype Log = Log(received: seq<byte>, echoed: seq<byte>)


  /**
   * The loop's state: whether the listening key is registered, whether
   * `main` is still looping, the registered clients with the state of each
   * attached buffer and their traffic, and the id the next client gets.
   */
  datatype Table = Table(listening: bool, running: bool, clients: map<nat, BufferState>,
                         logs: map<nat, Log>, nextId: nat)

  /**
   * The server invariant: ids are below nextId, and every open connection's
   * buffer is a 100-byte buffer in fill mode whose echoed bytes followed by
   * its pending bytes are exactly its received bytes.
   */
  predicate Consistent(t: Table)
  {
    && t.clients.Keys == t.logs.Keys
    && forall id | id in t.clients ::
      id < t.nextId && Echoes(t.clients[id], t.logs[id].received, t.logs[id].echoed)
  }

  /** Client `id` is registered and its buffer is a well-formed ByteBuffer. */
  predicate Live(t: Table, id: nat)
  {
    id in t.clients && id in t.logs && Wf(t.clients[id])
  }

  /**
   * Isolation: every client other than the one behind key `k` is still
   * registered, with the same buffer and the same traffic.
   */
  predicate OthersKept(c0: map<nat, BufferState>, l0: map<nat, Log>,
                             c1: map<nat, BufferState>, l1: map<nat, Log>, k: Key)
  {
    forall id | id in c0 && Client(id) != k ::
      id in c1 && c1[id] == c0[id] && id in l0 && id in l1 && l1[id] == l0[id]
  }


  /** `key.channel().close()` for client `id`: its key and its buffer are gone. */
  function CloseEffect(t: Table, id: nat): Table
  {
    t.(clients := t.clients - {id}, logs := t.logs - {id})
  }

  /**
   * The acceptable branch: a new client is registered under the next id with a
   * fresh 100-byte buffer; an IOException closes key.channel(), which for the
   * listening key is the listening channel; accept() returning null ends `main`
   * with an uncaught NullPointerException.
   */
  function AcceptEffect(t: Table, r: AcceptResult): Table
  {
    match r
    case NewConnection =>
      t.(clients := t.clients[t.nextId := Allocate(EchoCapacity)],
         logs := t.logs[t.nextId := Log([], [])],
         nextId := t.nextId + 1)
    case NoPendingConnection => t.(running := false)
    case AcceptFailed => t.(listening := false)
  }

  /** The readable branch: `client.read(buffer)`, whose -1 is ignored; an IOException closes the client. */
  function ReadEffect(t: Table, id: nat, r: ReadResult): Table
    requires Live(t, id)
  {
    match r
    case Arrived(available) =>
      var b := t.clients[id];
      t.(clients := t.clients[id := OnReadable(b, available)],
         logs := t.logs[id := Log(t.logs[id].received + available[..ReadCount(b, available)], t.logs[id].echoed)])
    case ReadEndOfStream => t
    case ReadFailed => CloseEffect(t, id)
  }

  /** The writable branch: flip, `client.write(buffer)`, compact; an IOException from write closes the client. */
  function WriteEffect(t: Table, id: nat, r: WriteResult): Table
    requires Live(t, id)
  {
    match r
    case Takes(accept) =>
      var b := t.clients[id];
      t.(clients := t.clients[id := OnWritable(b, accept)],
         logs := t.logs[id := Log(t.logs[id].received, t.logs[id].echoed + Sent(b, accept))])
    case WriteFailed => CloseEffect(t, id)
  }

  /**
   * One key of the selected-key set: the one branch Choose picks. A client key
   * that is not registered cannot be reported (see RegisteredAmong) and leaves
   * the state as it is. Only a null from accept() stops the loop, and only an
   * accept IOException closes the listening channel.
   */
  function KeyEffect(t: Table, sk: SelectedKey): (r: Table)
    ensures r.running == (t.running && !(Choose(sk.ops) == AcceptBranch && sk.accept == NoPendingConnection))
    ensures r.listening == (t.listening && !(Choose(sk.ops) == AcceptBranch && sk.accept == AcceptFailed))
  {
    match Choose(sk.ops)
    case AcceptBranch => AcceptEffect(t, sk.accept)
    case ReadBranch =>
      if sk.key.Client? && Live(t, sk.key.id) then ReadEffect(t, sk.key.id, sk.read) else t
    case WriteBranch =>
      if sk.key.Client? && Live(t, sk.key.id) then WriteEffect(t, sk.key.id, sk.write) else t
    case NoBranch => t
  }

  /** Closing a client keeps the invariant and every other client. */
  lemma CloseConsistent(t: Table, id: nat)
    requires Consistent(t)
    ensures var r := CloseEffect(t, id); Consistent(r) && OthersKept(t.clients, t.logs, r.clients, r.logs, Client(id))
  {
  }

  /** Every outcome of accept keeps the invariant and every client already registered. */
  lemma AcceptConsistent(t: Table, a: AcceptResult, k: Key)
    requires Consistent(t)
    ensures var r := AcceptEffect(t, a); Consistent(r) && OthersKept(t.clients, t.logs, r.clients, r.logs, k)
  {
    if a == NewConnection {
      AcceptEchoes();
      assert t.nextId !in t.clients;
    }
  }

  /** Every outcome of a read keeps the invariant and every other client. */
  lemma ReadConsistent(t: Table, id: nat, rr: ReadResult)
    requires Consistent(t) && Live(t, id)
    ensures var r := ReadEffect(t, id, rr); Consistent(r) && OthersKept(t.clients, t.logs, r.clients, r.logs, Client(id))
  {
    match rr
    case Arrived(available) =>
      ReadKeepsEchoing(t.clients[id], t.logs[id].received, t.logs[id].echoed, available);
    case ReadEndOfStream =>
    case ReadFailed =>
      CloseConsistent(t, id);
  }

  /** Every outcome of a write keeps the invariant and every other client. */
  lemma WriteConsistent(t: Table, id: nat, wr: WriteResult)
    requires Consistent(t) && Live(t, id)
    ensures var r := WriteEffect(t, id, wr); Consistent(r) && OthersKept(t.clients, t.logs, r.clients, r.logs, Client(id))
  {
    match wr
    case Takes(accept) =>
      WriteKeepsEchoing(t.clients[id], t.logs[id].received, t.logs[id].echoed, accept);
    case WriteFailed =>
      CloseConsistent(t, id);
  }

  /**
   * Every branch keeps the server invariant, and isolation: no client other
   * than the one behind the handled key changes registration, buffer or traffic.
   */
  lemma KeyEffectConsistent(t: Table, sk: SelectedKey)
    requires Consistent(t)
    ensures Consistent(KeyEffect(t, sk))
    ensures OthersKept(t.clients, t.logs, KeyEffect(t, sk).clients, KeyEffect(t, sk).logs, sk.key)
  {
    match Choose(sk.ops)
    case AcceptBranch =>
      AcceptConsistent(t, sk.accept, sk.key);
    case ReadBranch =>
      if sk.key.Client? && Live(t, sk.key.id) {
        ReadConsistent(t, sk.key.id, sk.read);
      }
    case WriteBranch =>
      if sk.key.Client? && Live(t, sk.key.id) {
        WriteConsistent(t, sk.key.id, sk.write);
      }
    case NoBranch =>
  }

  /**
   * Dispatch exclusivity: a client key that is readable takes the read branch
   * only, even when it is writable as well; nothing is written to it in that pass.
   */
  lemma ReadableOnlyReads(t: Table, sk: SelectedKey, id: nat)
    requires Consistent(t) && sk.key == Client(id) && id in t.clients
    requires KeyOpsAgree(sk) && sk.ops.readable
    ensures KeyEffect(t, sk) == ReadEffect(t, id, sk.read)
    ensures id in KeyEffect(t, sk).logs ==> KeyEffect(t, sk).logs[id].echoed == t.logs[id].echoed
  {
  }

  /**
   * A readable key whose read takes nothing, because the buffer is full or
   * the peer has closed (read returns -1), leaves the whole state unchanged:
   * while the key stays readable its write branch never runs, so its pending
   * bytes are not echoed.
   */
  lemma ReadableStalls(t: Table, sk: SelectedKey, id: nat)
    requires Consistent(t) && sk.key == Client(id) && id in t.clients
    requires KeyOpsAgree(sk) && sk.ops.readable
    requires sk.read == ReadEndOfStream || (sk.read.Arrived? && t.clients[id].position == EchoCapacity)
    ensures KeyEffect(t, sk) == t
  {
    var b := t.clients[id];
    if sk.read.Arrived? {
      FillAppends(b, sk.read.available);
      assert OnReadable(b, sk.read.available) == b;
      assert sk.read.available[..ReadCount(b, sk.read.available)] == [];
      assert t.logs[id].received + [] == t.logs[id].received;
      assert t.clients[id := b] == t.clients;
      assert t.logs[id := t.logs[id]] == t.logs;
    }
  }

  /**
   * The inner loop over a selected-key set: each key, in iteration order,
   * gets its KeyEffect, until the keys run out or `main` has ended.
   */
  function Pass(t: Table, keys: seq<SelectedKey>): Table
    decreases |keys|
  {
    if keys == [] || !t.running then t else Pass(KeyEffect(t, keys[0]), keys[1..])
  }

  /** A pass keeps the server invariant. */
  lemma {:induction false} PassConsistent(t: Table, keys: seq<SelectedKey>)
    requires Consistent(t)
    ensures Consistent(Pass(t, keys))
    decreases |keys|
  {
    if keys != [] && t.running {
      KeyEffectConsistent(t, keys[0]);
      PassConsistent(KeyEffect(t, keys[0]), keys[1..]);
    }
  }

  /**
   * Error isolation over a pass: a client with no key in the selected set is
   * still registered afterwards, with the same buffer and traffic, whatever
   * failed on the other keys.
   */
  lemma {:induction false} PassIsolates(t: Table, keys: seq<SelectedKey>, id: nat)
    requires Consistent(t) && id in t.clients
    requires forall i | 0 <= i < |keys| :: keys[i].key != Client(id)
    ensures var r := Pass(t, keys);
      id in r.clients && r.clients[id] == t.clients[id] && id in r.logs && r.logs[id] == t.logs[id]
    decreases |keys|
  {
    if keys != [] && t.running {
      KeyEffectConsistent(t, keys[0]);
      PassIsolates(KeyEffect(t, keys[0]), keys[1..], id);
    }
  }

  /** A pass stops the server only through a key whose accept() returned null. */
  lemma {:induction false} PassStops(t: Table, keys: seq<SelectedKey>)
    ensures t.running && !Pass(t, keys).running ==>
      exists i | 0 <= i < |keys| :: Choose(keys[i].ops) == AcceptBranch && keys[i].accept == NoPendingConnection
    decreases |keys|
  {
    if keys != [] && t.running {
      var u := KeyEffect(t, keys[0]);
      PassStops(u, keys[1..]);
      if u.running && !Pass(u, keys[1..]).running {
        var i :| 0 <= i < |keys[1..]| && Choose(keys[1..][i].ops) == AcceptBranch && keys[1..][i].accept == NoPendingConnection;
        assert keys[i + 1] == keys[1..][i];
      }
    }
  }

  /**
   * The outer loop over a run of wakeups: a failed select ends the loop;
   * otherwise the keys the selector reports that are still registered make up
   * the selected-key set, and a Pass handles them.
   */
  function Loop(t: Table, wakeups: seq<Wakeup>): Table
    decreases |wakeups|
  {
    if wakeups == [] || !t.running then t
    else Loop(Wake(t, wakeups[0]), wakeups[1..])
  }

  /** One return from `selector.select()` and the inner loop after it. */
  function Wake(t: Table, w: Wakeup): Table
  {
    match w
    case SelectFailed => t.(running := false)
    case Selected(ready) => Pass(t, RegisteredAmong(ready, t.listening, t.clients.Keys))
  }

  /** The outer loop keeps the server invariant. */
  lemma {:induction false} LoopConsistent(t: Table, wakeups: seq<Wakeup>)
    requires Consistent(t)
    ensures Consistent(Loop(t, wakeups))
    decreases |wakeups|
  {
    if wakeups != [] && t.running && wakeups[0].Selected? {
      var u := Pass(t, RegisteredAmong(wakeups[0].ready, t.listening, t.clients.Keys));
      PassConsistent(t, RegisteredAmong(wakeups[0].ready, t.listening, t.clients.Keys));
      LoopConsistent(u, wakeups[1..]);
    }
  }

  /** A null accept reported for the listening key. */
  predicate NullAccept(ready: seq<SelectedKey>)
  {
    exists k | k in ready :: Choose(k.ops) == AcceptBranch && k.accept == NoPendingConnection
  }

  /**
   * The server stops only where a select failed or an accept() returned null,
   * and once a select has failed it has stopped.
   */
  lemma {:induction false} LoopStops(t: Table, wakeups: seq<Wakeup>)
    ensures t.running && !Loop(t, wakeups).running ==>
      exists i | 0 <= i < |wakeups| :: wakeups[i] == SelectFailed || (wakeups[i].Selected? && NullAccept(wakeups[i].ready))
    ensures SelectFailed in wakeups ==> !Loop(t, wakeups).running
    decreases |wakeups|
  {
    if wakeups != [] && t.running {
      assert wakeups[0] in wakeups;
      if wakeups[0].Selected? {
        var keys := RegisteredAmong(wakeups[0].ready, t.listening, t.clients.Keys);
        var u := Pass(t, keys);
        LoopStops(u, wakeups[1..]);
        PassStops(t, keys);
        if !u.running {
          var i :| 0 <= i < |keys| && Choose(keys[i].ops) == AcceptBranch && keys[i].accept == NoPendingConnection;
          assert keys[i] in keys;
        } else if !Loop(u, wakeups[1..]).running {
          var i :| 0 <= i < |wakeups[1..]| &&
            (wakeups[1..][i] == SelectFailed || (wakeups[1..][i].Selected? && NullAccept(wakeups[1..][i].ready)));
          assert wakeups[i + 1] == wakeups[1..][i];
        }
        if SelectFailed in wakeups {
          var j :| 0 <= j < |wakeups| && wakeups[j] == SelectFailed;
          assert j > 0 && wakeups[1..][j - 1] == SelectFailed;
        }
      }
    }
  }
}
