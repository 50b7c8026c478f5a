/** `FtpUploader`: resumable upload under failures after any number of bytes. STOR is section 4.1.3
    of RFC 959; REST in STREAM mode is section 5 of RFC 3659. The local file does not change. */
module FtpUploader {
  import opened Wrappers

  const BLOCK_SIZE: nat := 1024 * 1024

  type Byte = x: int | 0 <= x < 256

  type Bytes = seq<Byte>

  /** What the SIZE command gives: the size, no size (refused, or no such file), or a broken connection. */
  datatype SizeReply = Told | Refused | Broken

  /** What the network does in one attempt: whether the directory is reached, the SIZE reply,
      whether the data connection opens, how many bytes it carries, and the final reply. */
  datatype Attempt = Attempt(reaches: bool, size: SizeReply, opens: bool, carries: nat, confirms: bool)

  type Network = nat -> Attempt

  function Content(remote: Option<Bytes>): Bytes { remote.GetOr([]) }

  function Min(a: nat, b: nat): nat { if a < b then a else b }

  /** The offset the upload resumes from. */
  function Offset(remote: Option<Bytes>, a: Attempt): nat {
    if a.size.Told? then |Content(remote)| else 0
  }

  predicate Transfers(remote: Option<Bytes>, local: Bytes, a: Attempt) {
    a.reaches && !a.size.Broken? && !(Offset(remote, a) >= |local| > 0) && a.opens
  }

  /** What is left to send, and how much of it arrives. */
  function ToSend(remote: Option<Bytes>, local: Bytes, a: Attempt): Bytes {
    if Offset(remote, a) <= |local| then local[Offset(remote, a)..] else []
  }

  function Arrives(remote: Option<Bytes>, local: Bytes, a: Attempt): nat {
    if Transfers(remote, local, a) then Min(a.carries, |ToSend(remote, local, a)|) else 0
  }

  function RemoteAfter(remote: Option<Bytes>, local: Bytes, a: Attempt): Option<Bytes> {
    if !Transfers(remote, local, a) then remote
    else
      var kept := if Offset(remote, a) > 0 then Content(remote) else [];
      Some(kept + ToSend(remote, local, a)[..Arrives(remote, local, a)])
  }

  predicate Succeeds(remote: Option<Bytes>, local: Bytes, a: Attempt) {
    && a.reaches && !a.size.Broken?
    && (Offset(remote, a) >= |local| > 0
        || (a.opens && a.confirms && |ToSend(remote, local, a)| <= a.carries))
  }

  class FtpServer {
    var file: Option<Bytes>

    constructor (file: Option<Bytes>)
      ensures this.file == file
    {
      this.file := file;
    }

    /** `sendall` of one block over a connection with `room` bytes left in it. */
    method Receive(block: Bytes, room: nat) returns (all: bool)
      requires file.Some?
      modifies this
      ensures file == Some(old(file).value + block[..Min(room, |block|)]) && all == (|block| <= room)
    {
      file := Some(file.value + block[..Min(room, |block|)]);
      all := |block| <= room;
    }
  }

  /** `_stor_file`, with everything that comes before it in an attempt. */
  method StorFile(server: FtpServer, local: Bytes, a: Attempt) returns (ok: bool)
    modifies server
    ensures server.file == RemoteAfter(old(server.file), local, a)
    ensures ok == Succeeds(old(server.file), local, a)
    ensures ok <==>
      && a.reaches && !a.size.Broken?
      && (|| (a.size.Told? && |Content(old(server.file))| >= |local| > 0)
          || (a.opens && a.confirms
              && a.carries + (if a.size.Told? then |Content(old(server.file))| else 0) >= |local|))
  {
    if !a.reaches || a.size.Broken? {
      return false;
    }
    var remoteSize := if a.size.Told? then |Content(server.file)| else 0;
    if remoteSize >= |local| > 0 {
      return true;
    }
    if !a.opens {
      return false;
    }
    if remoteSize == 0 {
      server.file := Some([]);
    }
    var all := SendFrom(server, local, remoteSize, a.carries);
    ok := all && a.confirms;
  }

  /** The block loop, over a connection that breaks after `carries` bytes. */
  method SendFrom(server: FtpServer, local: Bytes, offset: nat, carries: nat) returns (all: bool)
    requires server.file.Some?
    modifies server
    ensures var rest := if offset <= |local| then local[offset..] else [];
      server.file == Some(old(server.file).value + rest[..Min(carries, |rest|)]) && all == (|rest| <= carries)
  {
    ghost var kept, rest := server.file.value, if offset <= |local| then local[offset..] else [];
    var pos: nat, room: nat := offset, carries;
    all := true;
    assert kept + rest[..0] == kept;
    while pos < |local| && all
      invariant offset <= pos && (pos == offset || pos <= |local|)
      invariant pos - offset <= |rest| && pos - offset + room == carries
      invariant !all ==> carries < |rest|
      invariant server.file == Some(kept + rest[..if all then pos - offset else carries])
      decreases if all then 1 else 0, |local| - pos
    {
      var block := local[pos..Min(pos + BLOCK_SIZE, |local|)];
      SendBlock(kept, rest, block, local, offset, pos, room);
      all := server.Receive(block, room);
      if all {
        room := room - |block|;
        pos := pos + |block|;
      }
    }
    assert all ==> pos - offset == |rest|;
  }

  lemma SendBlock(kept: Bytes, rest: Bytes, block: Bytes, local: Bytes, offset: nat, pos: nat, room: nat)
    requires offset <= pos < |local| && rest == local[offset..]
    requires block == local[pos..Min(pos + BLOCK_SIZE, |local|)]
    ensures var sent := Min(room, |block|);
      pos - offset + sent <= |rest| && kept + rest[..pos - offset] + block[..sent] == kept + rest[..pos - offset + sent]
  {
    var sent := Min(room, |block|);
    assert rest[..pos - offset] + block[..sent] == rest[..pos - offset + sent];
  }

  /** What one attempt leaves on the server: as many of the missing bytes as the connection carries,
      all of the file's first bytes when no length was known, and the same file without a transfer. */
  lemma AttemptDelivers(remote: Option<Bytes>, local: Bytes, a: Attempt)
    ensures var after, there := RemoteAfter(remote, local, a), |Content(remote)|;
      && (!a.reaches || !a.opens || a.size.Broken? ==> after == remote)
      && (a.size.Told? && |local| <= there && there > 0 ==> after == remote)
      && (a.reaches && a.opens && a.size.Told? && 0 < there < |local| ==>
            after == Some(remote.value + local[there..Min(|local|, there + a.carries)]))
      && (a.reaches && a.opens && (a.size.Refused? || (a.size.Told? && there == 0)) ==>
            after == Some(local[..Min(|local|, a.carries)]))
  {
    var there := |Content(remote)|;
    if Transfers(remote, local, a) && a.size.Told? && 0 < there {
      var sent := ToSend(remote, local, a)[..Arrives(remote, local, a)];
      assert there < |local| ==> sent == local[there..Min(|local|, there + a.carries)];
      assert there >= |local| ==> Content(remote) + sent == Content(remote);
    } else if Transfers(remote, local, a) {
      assert Offset(remote, a) == 0 && local[0..] == local;
      assert [] + local[..Min(|local|, a.carries)] == local[..Min(|local|, a.carries)];
    }
  }

  /** Attempts made from `remote`, none of the first `n` succeeding. */
  function RemoteAfterAttempts(remote: Option<Bytes>, local: Bytes, net: Network, n: nat): Option<Bytes> {
    if n == 0 then remote else RemoteAfter(RemoteAfterAttempts(remote, local, net, n - 1), local, net(n - 1))
  }

  predicate SucceedsAt(remote: Option<Bytes>, local: Bytes, net: Network, i: nat) {
    Succeeds(RemoteAfterAttempts(remote, local, net, i), local, net(i))
  }

  /** A whole transfer: the directory is reached, SIZE answers something, the connection opens, carries
      at least what is left to send and confirms it. */
  predicate Clean(remote: Option<Bytes>, local: Bytes, a: Attempt) {
    && a.reaches && !a.size.Broken? && a.opens && a.confirms
    && a.carries >= |local| - (if a.size.Told? && remote.Some? then |remote.value| else 0)
  }

  predicate CleanAt(remote: Option<Bytes>, local: Bytes, net: Network, i: nat) {
    Clean(RemoteAfterAttempts(remote, local, net, i), local, net(i))
  }

  /** Such an attempt counts as a success, whatever came before it. */
  lemma CleanSucceeds(remote: Option<Bytes>, local: Bytes, net: Network)
    ensures forall i: nat | CleanAt(remote, local, net, i) :: SucceedsAt(remote, local, net, i)
  {
    forall i: nat | CleanAt(remote, local, net, i)
      ensures SucceedsAt(remote, local, net, i)
    {
      var before := RemoteAfterAttempts(remote, local, net, i);
      assert Offset(before, net(i)) == if net(i).size.Told? && before.Some? then |before.value| else 0;
    }
  }

  /** True after the first attempt that succeeds, False after max_retry_num + 1 that do not. */
  method Upload(server: FtpServer, localFile: Option<Bytes>, maxRetryNum: int, net: Network)
    returns (ok: bool, tried: nat)
    modifies server
    ensures localFile.None? ==> !ok && tried == 0 && server.file == old(server.file)
    ensures tried <= (if maxRetryNum < 0 then 0 else maxRetryNum) + 1
    ensures localFile.Some? ==> server.file == RemoteAfterAttempts(old(server.file), localFile.value, net, tried)
    ensures localFile.Some? && ok ==> 0 < tried && SucceedsAt(old(server.file), localFile.value, net, tried - 1)
    ensures localFile.Some? && !ok ==> tried == (if maxRetryNum < 0 then 0 else maxRetryNum) + 1
    ensures localFile.Some? ==>
      forall i :: 0 <= i < tried && (ok ==> i < tried - 1) ==> !SucceedsAt(old(server.file), localFile.value, net, i)
    ensures localFile.Some? ==>
      forall i: nat | i <= (if maxRetryNum < 0 then 0 else maxRetryNum)
                      && CleanAt(old(server.file), localFile.value, net, i) ::
        ok && tried <= i + 1
  {
    tried := 0;
    if localFile.None? {
      return false, 0;
    }
    var maxRetry := if maxRetryNum < 0 then 0 else maxRetryNum;
    CleanSucceeds(server.file, localFile.value, net);
    while tried <= maxRetry
      invariant tried <= maxRetry + 1
      invariant server.file == RemoteAfterAttempts(old(server.file), localFile.value, net, tried)
      invariant forall i :: 0 <= i < tried ==> !SucceedsAt(old(server.file), localFile.value, net, i)
    {
      ok := StorFile(server, localFile.value, net(tried));
      tried := tried + 1;
      if ok {
        return;
      }
    }
    ok := false;
  }

  // ------------------------------------------------------------------ when is the remote file right?

  /** The size was not known, so the transfer began again from the first byte. */
  predicate Restarts(a: Attempt) { a.reaches && a.size.Refused? && a.opens }

  ghost predicate AnyRestart(net: Network, n: nat) { exists i :: 0 <= i < n && Restarts(net(i)) }

  lemma PrefixStep(remote: Option<Bytes>, local: Bytes, a: Attempt)
    ensures Content(RemoteAfter(remote, local, a)) <= local <==> Content(remote) <= local || Restarts(a)
    ensures Succeeds(remote, local, a) ==>
      (RemoteAfter(remote, local, a) == Some(local) <==> Content(RemoteAfter(remote, local, a)) <= local)
  {
    var after := RemoteAfter(remote, local, a);
    if Transfers(remote, local, a) && Offset(remote, a) > 0 {
      var arrived := ToSend(remote, local, a)[..Arrives(remote, local, a)];
      assert Content(after) == Content(remote) + arrived;
      assert Content(remote) <= local && Offset(remote, a) <= |local| ==>
        local == Content(remote) + local[Offset(remote, a)..];
    }
    if Succeeds(remote, local, a) && Content(after) <= local {
      assert |Content(after)| == |local|;
      assert Content(after) == local;
    }
  }

  /** Through any failed attempts the remote file is a prefix of the local one exactly when it was
      one to begin with or some transfer began again from the first byte. */
  lemma {:induction false} PrefixIff(remote: Option<Bytes>, local: Bytes, net: Network, n: nat)
    ensures Content(RemoteAfterAttempts(remote, local, net, n)) <= local <==>
      Content(remote) <= local || AnyRestart(net, n)
  {
    if n > 0 {
      PrefixIff(remote, local, net, n - 1);
      PrefixStep(RemoteAfterAttempts(remote, local, net, n - 1), local, net(n - 1));
    }
  }

  /** `upload` answers True with the remote file equal to the local one under just that condition. */
  lemma SuccessIff(remote: Option<Bytes>, local: Bytes, net: Network, tried: nat)
    requires 0 < tried && SucceedsAt(remote, local, net, tried - 1)
    ensures RemoteAfterAttempts(remote, local, net, tried) == Some(local) <==>
      Content(remote) <= local || AnyRestart(net, tried)
  {
    PrefixIff(remote, local, net, tried);
    PrefixStep(RemoteAfterAttempts(remote, local, net, tried - 1), local, net(tried - 1));
  }

  /** A leftover longer than the local file is called complete. */
  lemma LongerLeftoverIsNotComplete(remote: Bytes, local: Bytes, net: Network)
    requires |remote| >= |local| > 0 && remote != local && net(0).reaches && net(0).size.Told?
    ensures SucceedsAt(Some(remote), local, net, 0)
    ensures RemoteAfterAttempts(Some(remote), local, net, 1) == Some(remote)
  {
    assert RemoteAfterAttempts(Some(remote), local, net, 0) == Some(remote);
  }

  /** All bytes that arrive in `n` attempts. */
  function Sent(remote: Option<Bytes>, local: Bytes, net: Network, n: nat): nat {
    if n == 0 then 0
    else Sent(remote, local, net, n - 1) + Arrives(RemoteAfterAttempts(remote, local, net, n - 1), local, net(n - 1))
  }

  /** Resuming sends nothing twice: without a restart, the bytes that arrived are those the file gained. */
  lemma {:induction false} NothingSentTwice(remote: Option<Bytes>, local: Bytes, net: Network, n: nat)
    requires !AnyRestart(net, n)
    ensures |Content(RemoteAfterAttempts(remote, local, net, n))| == |Content(remote)| + Sent(remote, local, net, n)
  {
    if n > 0 {
      assert !AnyRestart(net, n - 1) by {
        assert forall i :: 0 <= i < n - 1 ==> !Restarts(net(i));
      }
      NothingSentTwice(remote, local, net, n - 1);
      assert !Restarts(net(n - 1));
    }
  }
}
