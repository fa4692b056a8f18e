// The last messages of a channel, kept in a doubly linked queue.
module ChannelHistory {
  import opened Options

  const CHANNEL_HISTORY_LEN := 20

  class Entry {
    var data: string
    var next: Entry?
    var prev: Entry?

    constructor (data: string)
      ensures this.data == data
    {
      this.data := data;
    }
  }

  function At(nodes: seq<Entry>, i: int): Entry? {
    if 0 <= i < |nodes| then nodes[i] else null
  }

  ghost predicate Chain(nodes: seq<Entry>, first: Entry?, last: Entry?)
    reads nodes`next, nodes`prev
  {
    && first == At(nodes, 0) && last == At(nodes, |nodes| - 1)
    && (forall i {:trigger nodes[i].next} :: 0 <= i < |nodes| ==> nodes[i].next == At(nodes, i + 1))
    && (forall i {:trigger nodes[i].prev} :: 0 <= i < |nodes| ==> nodes[i].prev == At(nodes, i - 1))
    && (forall i, j :: 0 <= i < j < |nodes| ==> nodes[i] != nodes[j])
  }

  // The messages, oldest first; the oldest is the last node.
  ghost function Messages(nodes: seq<Entry>): (s: seq<string>)
    reads nodes`data
    ensures |s| == |nodes| && forall i :: 0 <= i < |nodes| ==> s[|nodes| - 1 - i] == nodes[i].data
  {
    if nodes == [] then [] else Messages(nodes[1..]) + [nodes[0].data]
  }

  lemma {:induction false} WithoutOldest(nodes: seq<Entry>)
    requires nodes != []
    ensures Messages(nodes) == [nodes[|nodes| - 1].data] + Messages(nodes[..|nodes| - 1])
  {
    if |nodes| > 1 {
      assert nodes[..|nodes| - 1][1..] == nodes[1..][..|nodes| - 2];
      WithoutOldest(nodes[1..]);
    }
  }

  class Fifo {
    var first: Entry?
    var last: Entry?
    var count: nat
    ghost var nodes: seq<Entry>
    ghost var repr: set<Entry>

    ghost predicate Valid()
      reads this, repr
    {
      && (forall n :: n in nodes ==> n in repr)
      && Chain(nodes, first, last) && count == |nodes|
    }

    ghost function Contents(): seq<string>
      requires Valid()
      reads this, repr
    {
      Messages(nodes)
    }

    constructor ()
      ensures Valid() && Contents() == [] && count == 0 && repr == {}
    {
      first, last, count, nodes, repr := null, null, 0, [], {};
    }

    // myfifo_push
    method Push(data: string)
      requires Valid()
      modifies this, repr
      ensures Valid() && Contents() == old(Contents()) + [data]
      ensures count == old(count) + 1 && forall n :: n in repr ==> n in old(repr) || fresh(n)
    {
      ghost var was := nodes;
      var tmp := new Entry(data);
      tmp.next := first;
      tmp.prev := null;
      count := count + 1;
      if first == null {
        first := tmp;
        last := tmp;
      } else {
        first.prev := tmp;
      }
      first := tmp;
      nodes := [tmp] + was;
      repr := repr + {tmp};
      assert nodes[1..] == was;
    }

    // myfifo_pop; taking the only entry of a queue would follow a null pointer.
    method Pop() returns (data: Option<string>)
      requires Valid() && count != 1
      modifies this, repr
      ensures Valid() && repr == old(repr)
      ensures old(count) == 0 ==> data == None && Contents() == []
      ensures old(count) > 0 ==>
                data == Some(old(Contents())[0]) && Contents() == old(Contents())[1..] && count == old(count) - 1
    {
      if last == null {
        return None;
      }
      ghost var was := nodes;
      WithoutOldest(was);
      var tmp := last;
      if first == last {
        assert false;
      } else {
        tmp.prev.next := null;
      }
      last := tmp.prev;
      if last.prev == null {
        first := last;
      }
      count := count - 1;
      data := Some(tmp.data);
      nodes := was[..|was| - 1];
    }

    // myfifo_trav_r
    method TravR() returns (seen: seq<string>)
      requires Valid()
      ensures seen == Contents()
    {
      seen := [];
      var tmp := last;
      ghost var i := |nodes| - 1;
      while tmp != null
        invariant -1 <= i < |nodes| && tmp == At(nodes, i)
        invariant |seen| == |nodes| - 1 - i && seen == Contents()[..|seen|]
        decreases i
      {
        seen := seen + [tmp.data];
        tmp := tmp.prev;
        i := i - 1;
      }
    }
  }

  // The last n of the messages.
  function LastOf(s: seq<string>, n: nat): seq<string> {
    if |s| <= n then s else s[|s| - n..]
  }

  // The history part of do_comsend.
  method Record(history: Fifo, mess: string)
    requires history.Valid() && history.count <= CHANNEL_HISTORY_LEN
    modifies history, history.repr
    ensures history.Valid() && history.count <= CHANNEL_HISTORY_LEN
    ensures history.Contents() == LastOf(old(history.Contents()) + [mess], CHANNEL_HISTORY_LEN)
    ensures forall n :: n in history.repr ==> n in old(history.repr) || fresh(n)
  {
    if history.count >= CHANNEL_HISTORY_LEN {
      var _ := history.Pop();
    }
    history.Push(mess);
  }

  lemma LastOn(s: seq<string>, m: string, n: nat)
    requires n > 0
    ensures LastOf(LastOf(s, n) + [m], n) == LastOf(s + [m], n)
  {
  }

  // Starting empty, the history is the last twenty messages that were sent, and
  // is shown oldest first.
  method SendAll(messages: seq<string>) returns (shown: seq<string>)
    ensures shown == LastOf(messages, CHANNEL_HISTORY_LEN)
  {
    assert LastOf([], CHANNEL_HISTORY_LEN) == [];
    hide LastOf, Fifo.Valid, Fifo.Contents;
    var history := new Fifo();
    for i := 0 to |messages|
      invariant fresh(history) && history.Valid() && history.count <= CHANNEL_HISTORY_LEN
      invariant forall n :: n in history.repr ==> fresh(n)
      invariant history.Contents() == LastOf(messages[..i], CHANNEL_HISTORY_LEN)
    {
      LastOn(messages[..i], messages[i], CHANNEL_HISTORY_LEN);
      assert messages[..i + 1] == messages[..i] + [messages[i]];
      Record(history, messages[i]);
    }
    assert messages[..|messages|] == messages;
    shown := history.TravR();
  }
}
