/**
 * EchoServer's `main` as an object: the registration table (the listening
 * key and one key per accepted client, each with the state of its attached
 * ByteBuffer), the selected-key set that the inner loop empties one key at
 * a time, the per-key handlers with their IOException handling, and the two
 * loops. Each method is proved to change the state exactly as the matching
 * ServerState function describes.
 */
module EventLoop {
  import opened BufferModel
  import opened EchoProtocol
  import opened Dispatch
  import opened ServerState
  import PortArgument

  class EchoServer {
    const port: int
    /** The listening channel is open, so its key is registered. */
    var listening: bool
    /** `main` is still inside its `while (true)` loop. */
    var running: bool
    /** The registered client keys, each with the state of its attached buffer. */
    var clients: map<nat, BufferState>
    var nextId: nat
    /** The selected-key set of the current pass, in iteration order. */
    var selectedKeys: seq<SelectedKey>
    /** The traffic of every open connection. */
    ghost var logs: map<nat, Log>

    /** The loop's state as a value. */
    ghost function Snapshot(): Table
      reads this
    {
      Table(listening, running, clients, logs, nextId)
    }

    ghost predicate Valid()
      reads this
    {
      Consistent(Snapshot())
    }

    predicate Registered(k: Key)
      reads this
    {
      IsRegistered(k, listening, clients.Keys)
    }

    /** Every key of `s` is still registered with the selector. */
    predicate AllRegistered(s: seq<SelectedKey>)
      reads this
    {
      forall i | 0 <= i < |s| :: Registered(s[i].key)
    }

    /** The start of `main` after a successful bind: listening on Port(args), no clients yet. */
    constructor (args: seq<string>)
      ensures Valid() && port == PortArgument.Port(args)
      ensures listening && running && clients == map[] && nextId == 0 && selectedKeys == []
    {
      port := PortArgument.Port(args);
      listening := true;
      running := true;
      clients := map[];
      nextId := 0;
      selectedKeys := [];
      logs := map[];
    }

    /** `key.channel().close()` in the catch block: only that key's registration and buffer go. */
    method Close(id: nat)
      requires Valid() && id in clients
      modifies this
      ensures Valid() && Snapshot() == CloseEffect(old(Snapshot()), id)
      ensures clients == old(clients) - {id} && logs == old(logs) - {id}
      ensures listening == old(listening) && running == old(running) && nextId == old(nextId)
      ensures selectedKeys == old(selectedKeys)
    {
      clients := clients - {id};
      logs := logs - {id};
    }

    /**
     * The acceptable branch for the listening key: register the accepted
     * client with a fresh 100-byte buffer. An IOException closes key.channel(),
     * which for this key is the listening channel; a null from accept() raises
     * a NullPointerException that nothing catches, so `main` ends.
     */
    method HandleAccept(result: AcceptResult)
      requires Valid() && listening
      modifies this
      ensures Valid() && Snapshot() == AcceptEffect(old(Snapshot()), result)
      ensures selectedKeys == old(selectedKeys)
      ensures result == NewConnection ==>
        && old(nextId) !in old(clients) && nextId == old(nextId) + 1
        && clients == old(clients)[old(nextId) := Allocate(EchoCapacity)]
        && logs == old(logs)[old(nextId) := Log([], [])]
        && listening && running == old(running)
      ensures result == NoPendingConnection ==>
        clients == old(clients) && logs == old(logs) && nextId == old(nextId) && listening && !running
      ensures result == AcceptFailed ==>
        clients == old(clients) && logs == old(logs) && nextId == old(nextId) && !listening && running == old(running)
    {
      match result
      case NewConnection =>
        AcceptEchoes();
        clients := clients[nextId := Allocate(EchoCapacity)];
        logs := logs[nextId := Log([], [])];
        nextId := nextId + 1;
      case NoPendingConnection =>
        running := false;
      case AcceptFailed =>
        listening := false;
    }

    /** The readable branch: `client.read(buffer)`; end of stream changes nothing, an IOException closes. */
    method HandleRead(id: nat, result: ReadResult)
      requires Valid() && id in clients
      modifies this
      ensures Valid() && Snapshot() == ReadEffect(old(Snapshot()), id, result)
      ensures listening == old(listening) && running == old(running) && nextId == old(nextId)
      ensures selectedKeys == old(selectedKeys)
      ensures result.Arrived? ==>
        var n := ReadCount(old(clients[id]), result.available);
        && clients == old(clients)[id := OnReadable(old(clients[id]), result.available)]
        && logs == old(logs)[id := Log(old(logs[id].received) + result.available[..n], old(logs[id].echoed))]
      ensures result.ReadEndOfStream? ==> clients == old(clients) && logs == old(logs)
      ensures result.ReadFailed? ==> clients == old(clients) - {id} && logs == old(logs) - {id}
    {
      match result
      case Arrived(available) =>
        var n := ReadCount(clients[id], available);
        ReadKeepsEchoing(clients[id], logs[id].received, logs[id].echoed, available);
        logs := logs[id := Log(logs[id].received + available[..n], logs[id].echoed)];
        clients := clients[id := OnReadable(clients[id], available)];
      case ReadEndOfStream =>
      case ReadFailed =>
        Close(id);
    }

    /**
     * The writable branch: flip, `client.write(buffer)`, compact. An IOException
     * from write (after the flip, before the compaction) closes the channel.
     */
    method HandleWrite(id: nat, result: WriteResult)
      requires Valid() && id in clients
      modifies this
      ensures Valid() && Snapshot() == WriteEffect(old(Snapshot()), id, result)
      ensures listening == old(listening) && running == old(running) && nextId == old(nextId)
      ensures selectedKeys == old(selectedKeys)
      ensures result.Takes? ==>
        && clients == old(clients)[id := OnWritable(old(clients[id]), result.accept)]
        && logs == old(logs)[id := Log(old(logs[id].received),
             old(logs[id].echoed) + Sent(old(clients[id]), result.accept))]
      ensures result.WriteFailed? ==> clients == old(clients) - {id} && logs == old(logs) - {id}
    {
      match result
      case Takes(accept) =>
        var sent := Sent(clients[id], accept);
        WriteKeepsEchoing(clients[id], logs[id].received, logs[id].echoed, accept);
        logs := logs[id := Log(logs[id].received, logs[id].echoed + sent)];
        clients := clients[id := OnWritable(clients[id], accept)];
      case WriteFailed =>
        Close(id);
    }

    /**
     * The body of the inner loop for one key, already removed from the
     * selected-key set: exactly the branch Choose picks runs, so the new state
     * is KeyEffect of the old one; no other client changes, and the keys still
     * to be handled stay registered.
     */
    method HandleKey(sk: SelectedKey)
      requires Valid() && running && Registered(sk.key) && KeyOpsAgree(sk)
      requires forall i | 0 <= i < |selectedKeys| :: selectedKeys[i].key != sk.key
      requires AllRegistered(selectedKeys)
      modifies this
      ensures Valid() && Snapshot() == KeyEffect(old(Snapshot()), sk)
      ensures selectedKeys == old(selectedKeys) && AllRegistered(selectedKeys)
      ensures OthersKept(old(clients), old(logs), clients, logs, sk.key)
    {
      ghost var t := Snapshot();
      match Choose(sk.ops) {
        case AcceptBranch =>
          HandleAccept(sk.accept);
        case ReadBranch =>
          HandleRead(sk.key.id, sk.read);
        case WriteBranch =>
          HandleWrite(sk.key.id, sk.write);
        case NoBranch =>
      }
      KeyEffectConsistent(t, sk);
    }

    /**
     * One turn of the inner loop: `iterator.next()`, `iterator.remove()`,
     * then the branch for that key.
     */
    method HandleNext()
      requires Valid() && running && |selectedKeys| > 0
      requires Reportable(selectedKeys) && AllRegistered(selectedKeys)
      modifies this
      ensures Valid() && Reportable(selectedKeys) && AllRegistered(selectedKeys)
      ensures selectedKeys == old(selectedKeys)[1..]
      ensures Snapshot() == KeyEffect(old(Snapshot()), old(selectedKeys)[0])
    {
      var sk := selectedKeys[0];
      ReportableTail(selectedKeys);
      selectedKeys := selectedKeys[1..];
      HandleKey(sk);
    }

    /**
     * The inner `while (iterator.hasNext())` loop: each key is removed from
     * the selected-key set and handled, in iteration order, until the set is
     * empty or an accept() returning null ends `main`; the new state is the
     * Pass over the set.
     */
    method ProcessSelectedKeys()
      requires Valid() && running && Reportable(selectedKeys) && AllRegistered(selectedKeys)
      modifies this
      ensures Valid() && Snapshot() == Pass(old(Snapshot()), old(selectedKeys))
      ensures |selectedKeys| <= |old(selectedKeys)|
      ensures selectedKeys == old(selectedKeys)[|old(selectedKeys)| - |selectedKeys|..]
      ensures running ==> selectedKeys == []
      ensures !running ==> var done := |old(selectedKeys)| - |selectedKeys|;
        done > 0 && Choose(old(selectedKeys)[done - 1].ops) == AcceptBranch
        && old(selectedKeys)[done - 1].accept == NoPendingConnection
    {
      ghost var keys := selectedKeys;
      ghost var done := 0;
      while |selectedKeys| > 0 && running
        invariant Valid() && Reportable(selectedKeys) && AllRegistered(selectedKeys)
        invariant 0 <= done <= |keys| && selectedKeys == keys[done..]
        invariant Pass(Snapshot(), selectedKeys) == Pass(old(Snapshot()), keys)
        invariant !running ==>
          done > 0 && Choose(keys[done - 1].ops) == AcceptBranch && keys[done - 1].accept == NoPendingConnection
        decreases |selectedKeys|
      {
        assert selectedKeys[1..] == keys[done + 1..];
        HandleNext();
        done := done + 1;
      }
    }

    /**
     * One turn of the outer loop: `selector.select()`, whose IOException
     * breaks out of the loop, then the inner loop over the reported keys
     * that are still registered.
     */
    method HandleWakeup(w: Wakeup)
      requires Valid() && running
      requires w.Selected? ==> Reportable(w.ready)
      modifies this
      ensures Valid() && Snapshot() == Wake(old(Snapshot()), w)
    {
      match w {
        case SelectFailed =>
          running := false;
        case Selected(ready) =>
          RegisteredAmongReportable(ready, listening, clients.Keys);
          selectedKeys := RegisteredAmong(ready, listening, clients.Keys);
          ProcessSelectedKeys();
      }
    }

    /**
     * The outer `while (true)` loop over a run of wakeups: a failed select
     * ends the loop (`break`); otherwise the selector reports the keys of the
     * wakeup that are still registered, and the inner loop handles them. The
     * new state is the Loop over the wakeups: every open connection keeps
     * echoing, the server stops only at a failed select or a null accept, and
     * once a select has failed it has stopped.
     */
    method Serve(wakeups: seq<Wakeup>)
      requires Valid() && running
      requires forall i | 0 <= i < |wakeups| :: wakeups[i].Selected? ==> Reportable(wakeups[i].ready)
      modifies this
      ensures Valid() && Snapshot() == Loop(old(Snapshot()), wakeups)
      ensures !running ==>
        exists i | 0 <= i < |wakeups| :: wakeups[i] == SelectFailed || (wakeups[i].Selected? && NullAccept(wakeups[i].ready))
      ensures SelectFailed in wakeups ==> !running
    {
      var i := 0;
      while i < |wakeups| && running
        invariant 0 <= i <= |wakeups|
        invariant Valid()
        invariant Loop(Snapshot(), wakeups[i..]) == Loop(old(Snapshot()), wakeups)
        decreases |wakeups| - i
      {
        HandleWakeup(wakeups[i]);
        assert wakeups[i..][1..] == wakeups[i + 1..];
        i := i + 1;
      }
      LoopStops(old(Snapshot()), wakeups);
    }
  }
}
