/**
 The two ring buffers of the server: captured packets and log entries. Both append until full and then
 overwrite the oldest item. What each holds is stated against the history of everything added since
 the last clear.
 */
module RingBuffers {
  import opened Bytes
  import opened PcapFile

  /** The last `n` items of a history. */
  function Newest<T>(history: seq<T>, n: nat): seq<T> {
    if |history| <= n then history else history[|history| - n..]
  }

  /** Oldest first: a full buffer starts at its write position. */
  function InOrder<T>(items: seq<T>, pos: nat, cap: nat): seq<T> {
    if |items| < cap || pos > |items| then items else items[pos..] + items[..pos]
  }

  function Added<T>(items: seq<T>, pos: nat, cap: nat, x: T): seq<T> {
    if |items| < cap then items + [x] else if pos < |items| then items[pos := x] else items
  }

  ghost predicate Holds<T>(items: seq<T>, pos: nat, cap: nat, history: seq<T>) {
    && cap > 0
    && pos < cap
    && |items| == (if |history| < cap then |history| else cap)
    && (|history| < cap ==> pos == |history|)
    && InOrder(items, pos, cap) == Newest(history, cap)
  }

  lemma AddHolds<T>(items: seq<T>, pos: nat, cap: nat, history: seq<T>, x: T)
    requires Holds(items, pos, cap, history)
    ensures Holds(Added(items, pos, cap, x), (pos + 1) % cap, cap, history + [x])
  {
    var added := Added(items, pos, cap, x);
    var next := (pos + 1) % cap;
    var before := InOrder(items, pos, cap);
    if |items| < cap {
      assert InOrder(added, next, cap) == items + [x] by {
        if |added| == cap {
          assert next == 0;
        }
      }
      assert Newest(history + [x], cap) == history + [x];
    } else {
      assert next == if pos + 1 == cap then 0 else pos + 1;
      assert InOrder(added, next, cap) == before[1..] + [x];
      assert Newest(history + [x], cap) == Newest(history, cap)[1..] + [x];
    }
  }

  /** Appends while there is room, then overwrites the oldest; both buffers do this. */
  method Push<T>(items: seq<T>, pos: nat, cap: nat, x: T, ghost history: seq<T>) returns (items': seq<T>, pos': nat)
    requires Holds(items, pos, cap, history)
    ensures Holds(items', pos', cap, history + [x])
  {
    AddHolds(items, pos, cap, history, x);
    if |items| < cap {
      items' := items + [x];
    } else {
      items' := items[pos := x];
    }
    pos' := (pos + 1) % cap;
  }

  /** Captured packets, read out for a download of everything or of one survey session. */
  class PacketRingBuffer {
    const maxPackets: nat
    var packets: seq<CapturedPacket>
    var writePos: nat
    var totalCaptured: nat
    ghost var history: seq<CapturedPacket>

    ghost predicate Valid()
      reads this
    {
      Holds(packets, writePos, maxPackets, history)
    }

    constructor (maxPackets: nat)
      requires maxPackets > 0
      ensures Valid() && history == [] && totalCaptured == 0 && this.maxPackets == maxPackets
    {
      this.maxPackets := maxPackets;
      packets, writePos, totalCaptured, history := [], 0, 0, [];
    }

    method AddPacket(packet: CapturedPacket)
      requires Valid()
      modifies this
      ensures Valid() && history == old(history) + [packet] && totalCaptured == old(totalCaptured) + 1
    {
      packets, writePos := Push(packets, writePos, maxPackets, packet, history);
      totalCaptured := totalCaptured + 1;
      history := history + [packet];
    }

    /** The newest packets since the last clear, oldest first. */
    method GetPackets() returns (result: seq<CapturedPacket>)
      requires Valid()
      ensures result == Newest(history, maxPackets)
    {
      if |packets| < maxPackets {
        result := packets;
      } else {
        result := packets[writePos..];
        result := result + packets[..writePos];
      }
    }

    method GetPacketsForSession(session: string) returns (result: seq<CapturedPacket>)
      requires Valid()
      ensures result == Filter(Newest(history, maxPackets), (p: CapturedPacket) => p.session == Some(session))
    {
      var all := GetPackets();
      result := Filter(all, (p: CapturedPacket) => p.session == Some(session));
    }

    /** The total goes on counting. */
    method ClearPackets()
      requires Valid()
      modifies this
      ensures Valid() && history == [] && totalCaptured == old(totalCaptured)
    {
      packets, writePos, history := [], 0, [];
    }
  }

  datatype LogEntry = LogEntry(timestampUs: nat, level: string, target: string, message: string)

  /** Log entries; a disabled buffer stays as it is. */
  class TracingBuffer {
    const maxEntries: nat
    const enabled: bool
    var entries: seq<LogEntry>
    var nextIndex: nat
    ghost var history: seq<LogEntry>

    ghost predicate Valid()
      reads this
    {
      Holds(entries, nextIndex, maxEntries, history)
    }

    constructor (maxEntries: nat, enabled: bool)
      requires maxEntries > 0
      ensures Valid() && history == [] && this.maxEntries == maxEntries && this.enabled == enabled
    {
      this.maxEntries, this.enabled := maxEntries, enabled;
      entries, nextIndex, history := [], 0, [];
    }

    method AddEntry(entry: LogEntry)
      requires Valid()
      modifies this
      ensures Valid() && history == if enabled then old(history) + [entry] else old(history)
    {
      if !enabled {
        return;
      }
      entries, nextIndex := Push(entries, nextIndex, maxEntries, entry, history);
      history := history + [entry];
    }

    method GetEntries() returns (result: seq<LogEntry>)
      requires Valid()
      ensures result == Newest(history, maxEntries)
    {
      if |entries| < maxEntries {
        result := entries;
      } else {
        result := [];
        for i := nextIndex to |entries|
          invariant result == entries[nextIndex..i]
        {
          result := result + [entries[i]];
        }
        for i := 0 to nextIndex
          invariant result == entries[nextIndex..] + entries[..i]
        {
          result := result + [entries[i]];
        }
      }
    }

    method ClearEntries()
      requires Valid()
      modifies this
      ensures Valid() && history == []
    {
      entries, nextIndex, history := [], 0, [];
    }
  }
}
