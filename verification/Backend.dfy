/** Ranged reads of a pack file through a reader that may return less than it is asked for. */
module Backend {
  import opened Base
  import opened StoreState

  /** What one `read` into `room` bytes delivers: something, unless there is nothing left. */
  function Delivered(ask: nat, room: nat, left: nat): (n: nat)
    ensures n <= room && n <= left
    ensures n == 0 <==> room == 0 || left == 0
  {
    Min(Min(Max(ask, 1), room), left)
  }

  /**
   * The file backend's ranged read: seek, then read until the buffer is full or the file
   * ends. However the reads fall it returns what the in-memory backend's clamped slice does.
   */
  method ReadRange(packs: map<Uuid, Bytes>, id: Uuid, offset: nat, len: nat,
                   asks: nat -> nat) returns (r: Option<Bytes>)
    ensures r == GetRange(packs, id, offset, len)
  {
    if id !in packs { return None; }
    var blob := packs[id];
    var buf: Bytes := [];
    var call := 0;
    var start := Min(offset, |blob|);
    while |buf| < len
      invariant |buf| <= len && start + |buf| <= |blob| && buf == blob[start..start + |buf|]
      decreases len - |buf|
    {
      var at := start + |buf|;
      var n := Delivered(asks(call), len - |buf|, |blob| - at);
      if n == 0 { break; }
      assert blob[start..at] + blob[at..at + n] == blob[start..at + n];
      buf := buf + blob[at..at + n];
      call := call + 1;
    }
    r := Some(buf);
  }
}
