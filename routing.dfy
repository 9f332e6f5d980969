/** The broadcast router: which registered clients a command reaches, and
    the shape of the global-chat and advert messages, locally and towards
    the district peer. */
module Routing {
  import opened Text

  /** The part of a client record the core reads or sets: its connection
      id, source address, area (an index into the area list), character
      name as `get_char_name` reports it, role-play flag and the two
      moderation flags. */
  datatype Client = Client(
    id: nat,
    ip: string,
    area: nat,
    charName: string,
    inRp: bool,
    mutedGlobal: bool,
    mutedAdverts: bool)

  /** One `client.send_command(cmd, *args)`. */
  datatype Delivery = Delivery(to: nat, cmd: string, args: seq<string>)

  /** No two registered clients share an id. */
  ghost predicate DistinctIds(clients: seq<Client>)
  {
    forall i, j :: 0 <= i < j < |clients| ==> clients[i].id != clients[j].id
  }

  /** What `send_all_cmd_pred` sends: one delivery per client satisfying
      `pred`, in registry order. */
  function Deliveries(clients: seq<Client>, cmd: string, args: seq<string>, pred: Client -> bool): seq<Delivery>
  {
    if clients == [] then []
    else
      Deliveries(clients[..|clients| - 1], cmd, args, pred)
      + (var c := clients[|clients| - 1]; if pred(c) then [Delivery(c.id, cmd, args)] else [])
  }

  /** The number of registered clients satisfying `pred`. */
  function CountMatching(clients: seq<Client>, pred: Client -> bool): nat
  {
    if clients == [] then 0
    else CountMatching(clients[..|clients| - 1], pred) + (if pred(clients[|clients| - 1]) then 1 else 0)
  }

  /** How many deliveries in `log` go to client `id`. */
  function CountTo(log: seq<Delivery>, id: nat): nat
  {
    if log == [] then 0
    else CountTo(log[..|log| - 1], id) + (if log[|log| - 1].to == id then 1 else 0)
  }

  lemma {:induction false} CountToAppend(a: seq<Delivery>, b: seq<Delivery>, id: nat)
    ensures CountTo(a + b, id) == CountTo(a, id) + CountTo(b, id)
    decreases |b|
  {
    if b != [] {
      assert (a + b)[..|a + b| - 1] == a + b[..|b| - 1];
      CountToAppend(a, b[..|b| - 1], id);
    } else {
      assert a + b == a;
    }
  }

  /** Every delivery carries the command and arguments given, and goes to a
      registered client that satisfies `pred`; there is one per such client. */
  lemma {:induction false} DeliveriesSound(clients: seq<Client>, cmd: string, args: seq<string>, pred: Client -> bool)
    ensures |Deliveries(clients, cmd, args, pred)| == CountMatching(clients, pred)
    ensures forall d :: d in Deliveries(clients, cmd, args, pred) ==>
              d.cmd == cmd && d.args == args &&
              exists c :: c in clients && pred(c) && c.id == d.to
    decreases |clients|
  {
    if clients != [] {
      var init := clients[..|clients| - 1];
      DeliveriesSound(init, cmd, args, pred);
      forall d | d in Deliveries(clients, cmd, args, pred)
        ensures d.cmd == cmd && d.args == args && exists c :: c in clients && pred(c) && c.id == d.to
      {
        if d in Deliveries(init, cmd, args, pred) {
          var c :| c in init && pred(c) && c.id == d.to;
          assert c in clients;
        } else {
          assert clients[|clients| - 1] in clients;
        }
      }
    }
  }

  /** With distinct ids, each registered client receives exactly one copy
      when it satisfies `pred` and none otherwise. */
  lemma {:induction false} DeliveriesExactlyOnce(clients: seq<Client>, cmd: string, args: seq<string>,
                                                 pred: Client -> bool, i: nat)
    requires DistinctIds(clients)
    requires i < |clients|
    ensures CountTo(Deliveries(clients, cmd, args, pred), clients[i].id) == if pred(clients[i]) then 1 else 0
    decreases |clients|
  {
    var n := |clients| - 1;
    var init := clients[..n];
    var id := clients[i].id;
    var last := if pred(clients[n]) then [Delivery(clients[n].id, cmd, args)] else [];
    assert Deliveries(clients, cmd, args, pred) == Deliveries(init, cmd, args, pred) + last;
    CountToAppend(Deliveries(init, cmd, args, pred), last, id);
    assert CountTo(last, id) == if pred(clients[n]) && clients[n].id == id then 1 else 0 by {
      if last != [] { assert last[..0] == []; }
    }
    if i < n {
      assert init[i] == clients[i];
      assert DistinctIds(init) by {
        forall a, b | 0 <= a < b < |init|
          ensures init[a].id != init[b].id
        {
          assert init[a] == clients[a] && init[b] == clients[b];
        }
      }
      DeliveriesExactlyOnce(init, cmd, args, pred, i);
      assert clients[n].id != id;
    } else {
      forall j | 0 <= j < |init|
        ensures init[j].id != id
      {
        assert init[j] == clients[j];
      }
      NoneTo(init, cmd, args, pred, id);
    }
  }

  /** A client id absent from the registry receives nothing. */
  lemma {:induction false} NoneTo(clients: seq<Client>, cmd: string, args: seq<string>, pred: Client -> bool, id: nat)
    requires forall i :: 0 <= i < |clients| ==> clients[i].id != id
    ensures CountTo(Deliveries(clients, cmd, args, pred), id) == 0
    decreases |clients|
  {
    if clients != [] {
      var n := |clients| - 1;
      var init := clients[..n];
      var last := if pred(clients[n]) then [Delivery(clients[n].id, cmd, args)] else [];
      assert forall i :: 0 <= i < |init| ==> init[i] == clients[i];
      NoneTo(init, cmd, args, pred, id);
      CountToAppend(Deliveries(init, cmd, args, pred), last, id);
      assert last == [] || last[..0] == [];
    }
  }

  /** An always-false predicate delivers nothing. */
  lemma {:induction false} NobodyGetsNothing(clients: seq<Client>, cmd: string, args: seq<string>)
    ensures Deliveries(clients, cmd, args, c => false) == []
    decreases |clients|
  {
    if clients != [] {
      NobodyGetsNothing(clients[..|clients| - 1], cmd, args);
    }
  }

  /** The default, always-true predicate delivers one copy to every
      registered client, in registry order. */
  lemma {:induction false} EverybodyGetsOne(clients: seq<Client>, cmd: string, args: seq<string>)
    ensures Deliveries(clients, cmd, args, c => true)
         == seq(|clients|, i requires 0 <= i < |clients| => Delivery(clients[i].id, cmd, args))
    decreases |clients|
  {
    if clients != [] {
      EverybodyGetsOne(clients[..|clients| - 1], cmd, args);
    }
  }

  /** The filters `broadcast_global` and `broadcast_need` pass. */
  predicate NotMutedGlobal(c: Client) { !c.mutedGlobal }

  predicate NotMutedAdverts(c: Client) { !c.mutedAdverts }

  /** The out-of-character name of a global message:
      `"<dollar>G[{area.id}][{char}]"`, with `"[M]"` when sent as a moderator. */
  function GlobalHeader(areaId: nat, charName: string, asMod: bool): (h: string)
  {
    "<dollar>G[" + NatToString(areaId) + "][" + charName + "]" + (if asMod then "[M]" else "")
  }

  /** The moderator tag is appended and changes nothing else; the two
      headers are always distinct. */
  lemma GlobalHeaderTag(areaId: nat, charName: string)
    ensures GlobalHeader(areaId, charName, true) == GlobalHeader(areaId, charName, false) + "[M]"
    ensures GlobalHeader(areaId, charName, true) != GlobalHeader(areaId, charName, false)
    ensures GlobalHeader(areaId, charName, false)[..10] == "<dollar>G["
  {
    assert |GlobalHeader(areaId, charName, true)| == |GlobalHeader(areaId, charName, false)| + 3;
  }

  /** The district global event: `GLOBAL`, the moderator flag as `0` or
      `1`, the area id, the character name and the message, joined by `#`. */
  function GlobalEvent(asMod: bool, areaId: nat, charName: string, msg: string): string
  {
    "GLOBAL#" + (if asMod then "1" else "0") + "#" + NatToString(areaId) + "#" + charName + "#" + msg
  }

  /** The district advert event: `NEED`, the character name, the area
      name, the area id and the message, joined by `#`. */
  function NeedEvent(charName: string, areaName: string, areaId: nat, msg: string): string
  {
    "NEED#" + charName + "#" + areaName + "#" + NatToString(areaId) + "#" + msg
  }

  /** The advert text sent to local clients. */
  function AdvertBanner(charName: string, areaName: string, areaId: nat, msg: string): string
  {
    "=== Advert ===\r\n" + charName + " in " + areaName + " [" + NatToString(areaId) + "] needs " + msg
    + "\r\n==============="
  }

  lemma SplitTwoThenRest(a: string, b: string, rest: string)
    requires '#' !in a && '#' !in b
    ensures Split(a + ['#'] + (b + ['#'] + rest), '#') == [a, b] + Split(rest, '#')
  {
    SplitCons(b, '#', rest);
    SplitCons(a, '#', b + ['#'] + rest);
  }

  /** A record of four separator-free fields and a free-text tail splits
      into those four fields, then the pieces of the tail. */
  lemma SplitFourThenRest(a: string, b: string, c: string, d: string, rest: string)
    requires '#' !in a && '#' !in b && '#' !in c && '#' !in d
    ensures Split(a + ['#'] + (b + ['#'] + (c + ['#'] + (d + ['#'] + rest))), '#')
         == [a, b, c, d] + Split(rest, '#')
  {
    var t2 := c + ['#'] + (d + ['#'] + rest);
    SplitTwoThenRest(c, d, rest);
    SplitTwoThenRest(a, b, t2);
    Regroup(a, b, c, d, Split(rest, '#'));
  }

  lemma Regroup<T>(a: T, b: T, c: T, d: T, x: seq<T>)
    ensures [a, b] + ([c, d] + x) == [a, b, c, d] + x
  {
  }

  /** The peer splits a global event back into kind, moderator flag, area
      id and character, when the character name holds no `#`; the pieces
      after those join back into the message, whatever it holds. */
  lemma GlobalEventFields(asMod: bool, areaId: nat, charName: string, msg: string)
    requires '#' !in charName
    ensures Split(GlobalEvent(asMod, areaId, charName, msg), '#')
         == ["GLOBAL", if asMod then "1" else "0", NatToString(areaId), charName] + Split(msg, '#')
    ensures Join(Split(GlobalEvent(asMod, areaId, charName, msg), '#')[4..], '#') == msg
  {
    var flag := if asMod then "1" else "0";
    var id := NatToString(areaId);
    DigitsHaveNo(id, '#');
    assert GlobalEvent(asMod, areaId, charName, msg)
        == "GLOBAL" + ['#'] + (flag + ['#'] + (id + ['#'] + (charName + ['#'] + msg)));
    SplitFourThenRest("GLOBAL", flag, id, charName, msg);
    assert (["GLOBAL", flag, id, charName] + Split(msg, '#'))[4..] == Split(msg, '#');
    JoinSplit(msg, '#');
  }

  /** The peer splits an advert event back into kind, character, area name
      and area id, when the character and area names hold no `#`; the
      pieces after those join back into the message, whatever it holds. */
  lemma NeedEventFields(charName: string, areaName: string, areaId: nat, msg: string)
    requires '#' !in charName && '#' !in areaName
    ensures Split(NeedEvent(charName, areaName, areaId, msg), '#')
         == ["NEED", charName, areaName, NatToString(areaId)] + Split(msg, '#')
    ensures Join(Split(NeedEvent(charName, areaName, areaId, msg), '#')[4..], '#') == msg
  {
    var id := NatToString(areaId);
    DigitsHaveNo(id, '#');
    assert NeedEvent(charName, areaName, areaId, msg)
        == "NEED" + ['#'] + (charName + ['#'] + (areaName + ['#'] + (id + ['#'] + msg)));
    SplitFourThenRest("NEED", charName, areaName, id, msg);
    assert (["NEED", charName, areaName, id] + Split(msg, '#'))[4..] == Split(msg, '#');
    JoinSplit(msg, '#');
  }
}
