/** `TsuServer3`: the server object that owns the catalogs, the connection
    registry, the area member sets, the per-address connection counter and
    the two delivery logs standing for `send_command` and the district
    link. */
module TsuServer {
  import opened Wrappers
  import opened Text
  import opened Catalog
  import opened Routing

  // ---------------------------------------------------------------- registry helpers

  /** The ids of the clients whose area is `a`. */
  function MembersOf(clients: seq<Client>, a: nat): set<nat>
  {
    set i | 0 <= i < |clients| && clients[i].area == a :: clients[i].id
  }

  /** The ids of all registered clients. */
  function IdSet(clients: seq<Client>): set<nat>
  {
    set i | 0 <= i < |clients| :: clients[i].id
  }

  /** The registry position of the client with id `id`, or `|clients|`. */
  function IndexOfId(clients: seq<Client>, id: nat): (k: nat)
    ensures k <= |clients|
    ensures k < |clients| ==> clients[k].id == id
    ensures forall j :: 0 <= j < k ==> clients[j].id != id
  {
    if clients == [] then 0
    else if clients[0].id == id then 0
    else 1 + IndexOfId(clients[1..], id)
  }

  lemma MembersSnoc(clients: seq<Client>, c: Client, a: nat)
    ensures MembersOf(clients + [c], a) == MembersOf(clients, a) + (if c.area == a then {c.id} else {})
  {
    var cs := clients + [c];
    assert forall i :: 0 <= i < |clients| ==> cs[i] == clients[i];
    assert cs[|clients|] == c;
  }

  /** The registry over `areas` areas: ids are unique, every client's area
      exists and each area's member set is exactly the clients in it. */
  ghost predicate Registry(areas: nat, clients: seq<Client>, members: seq<set<nat>>)
  {
    && |members| == areas
    && DistinctIds(clients)
    && (forall i :: 0 <= i < |clients| ==> clients[i].area < areas)
    && (forall a :: 0 <= a < |members| ==> members[a] == MembersOf(clients, a))
  }

  /** Appending a client with a fresh id in area 0 and adding its id to
      area 0's set keeps the registry consistent. */
  lemma RegistryAdd(areas: nat, clients: seq<Client>, members: seq<set<nat>>, c: Client)
    requires Registry(areas, clients, members) && areas > 0 && c.area == 0
    requires forall i :: 0 <= i < |clients| ==> clients[i].id != c.id
    ensures Registry(areas, clients + [c], members[0 := members[0] + {c.id}])
    ensures forall a :: 0 <= a < areas ==> MembersOf(clients + [c], a) == members[0 := members[0] + {c.id}][a]
  {
    var cs := clients + [c];
    assert forall i :: 0 <= i < |clients| ==> cs[i] == clients[i];
    forall a | 0 <= a < areas
      ensures MembersOf(cs, a) == members[0 := members[0] + {c.id}][a]
    {
      MembersSnoc(clients, c, a);
    }
  }

  /** Taking client `k` out of the registry and its id out of its area's
      set keeps the registry consistent. */
  lemma RegistryRemove(areas: nat, clients: seq<Client>, members: seq<set<nat>>, k: nat)
    requires Registry(areas, clients, members) && k < |clients|
    ensures var a := clients[k].area;
      Registry(areas, clients[..k] + clients[k + 1..], members[a := members[a] - {clients[k].id}])
  {
    var a, id := clients[k].area, clients[k].id;
    var rest := clients[..k] + clients[k + 1..];
    DistinctRemove(clients, k);
    forall i | 0 <= i < |rest| ensures rest[i] == clients[if i < k then i else i + 1] {
    }
    forall b | 0 <= b < |members|
      ensures members[a := members[a] - {id}][b] == MembersOf(rest, b)
    {
      MembersRemove(clients, k, b);
      if b != a {
        assert id !in MembersOf(clients, b);
      }
    }
  }

  /** Removing a registered client takes exactly its id out of every
      area's member set. */
  lemma MembersRemove(clients: seq<Client>, k: nat, a: nat)
    requires DistinctIds(clients) && k < |clients|
    ensures MembersOf(clients[..k] + clients[k + 1..], a) == MembersOf(clients, a) - {clients[k].id}
  {
    var rest := clients[..k] + clients[k + 1..];
    forall i | 0 <= i < |rest| ensures rest[i] == clients[if i < k then i else i + 1] {
    }
    forall x | x in MembersOf(clients, a) - {clients[k].id} ensures x in MembersOf(rest, a) {
      var i :| 0 <= i < |clients| && clients[i].area == a && clients[i].id == x;
      assert i != k;
      assert rest[if i < k then i else i - 1] == clients[i];
    }
  }

  lemma DistinctRemove(clients: seq<Client>, k: nat)
    requires DistinctIds(clients) && k < |clients|
    ensures DistinctIds(clients[..k] + clients[k + 1..])
    ensures clients[k].id !in IdSet(clients[..k] + clients[k + 1..])
  {
    var rest := clients[..k] + clients[k + 1..];
    forall i | 0 <= i < |rest| ensures rest[i] == clients[if i < k then i else i + 1] {
    }
  }

  /** With distinct ids, the registry holds as many connections as ids. */
  lemma {:induction false} IdSetSize(clients: seq<Client>)
    requires DistinctIds(clients)
    ensures |IdSet(clients)| == |clients|
    decreases |clients|
  {
    if clients != [] {
      var n := |clients| - 1;
      var init := clients[..n];
      assert IdSet(clients) == IdSet(init) + {clients[n].id} by {
        forall x | x in IdSet(clients) ensures x in IdSet(init) + {clients[n].id} {
          var i :| 0 <= i < |clients| && clients[i].id == x;
          if i < n { assert init[i] == clients[i]; }
        }
      }
      assert clients[n].id !in IdSet(init);
      IdSetSize(init);
    }
  }

  /** `loaded_ips` after one more connection from `ip`: its count goes up
      by one from zero or from what it was, every other address keeps its
      count. */
  function CountConnection(counts: map<string, nat>, ip: string): (r: map<string, nat>)
    ensures ip in r && r[ip] == (if ip in counts then counts[ip] else 0) + 1
    ensures forall x :: x != ip ==> (x in r <==> x in counts)
    ensures forall x :: x != ip && x in r ==> r[x] == counts[x]
  {
    counts[ip := (if ip in counts then counts[ip] else 0) + 1]
  }

  // ---------------------------------------------------------------- identity and version

  predicate IsLowerHex(c: char) { '0' <= c <= '9' || 'a' <= c <= 'f' }

  /** What a SHA-256 hex digest looks like: 64 lowercase hex characters. */
  predicate IsHexDigest(d: string)
  {
    |d| == 64 && forall i :: 0 <= i < |d| ==> IsLowerHex(d[i])
  }

  /** `get_ipid`: the first twelve hex characters of the digest of the
      address followed by `str(server_number)`. */
  function Ipid(ip: string, serverNumber: int, sha256: string -> string): (id: string)
    requires IsHexDigest(sha256(ip + IntToString(serverNumber)))
    ensures |id| == 12 && forall i :: 0 <= i < 12 ==> IsLowerHex(id[i])
    ensures id <= sha256(ip + IntToString(serverNumber))
  {
    sha256(ip + IntToString(serverNumber))[..12]
  }

  /** The three version numbers in decimal, separated by dots. */
  function Version(release: nat, major: nat, minor: nat): string
  {
    NatToString(release) + "." + NatToString(major) + "." + NatToString(minor)
  }

  /** A version string splits on `.` back into its three numbers. */
  lemma VersionFields(release: nat, major: nat, minor: nat)
    ensures var f := Split(Version(release, major, minor), '.');
      && |f| == 3 && AllDigits(f[0]) && AllDigits(f[1]) && AllDigits(f[2])
      && ParseNat(f[0]) == release && ParseNat(f[1]) == major && ParseNat(f[2]) == minor
  {
    var fields := [NatToString(release), NatToString(major), NatToString(minor)];
    DigitsHaveNo(NatToString(release), '.');
    DigitsHaveNo(NatToString(major), '.');
    DigitsHaveNo(NatToString(minor), '.');
    assert Join(fields[1..], '.') == NatToString(major) + "." + NatToString(minor);
    assert Join(fields, '.') == Version(release, major, minor);
    SplitJoin(fields, '.');
    ParseNatToString(release);
    ParseNatToString(major);
    ParseNatToString(minor);
  }

  // ---------------------------------------------------------------- configuration defaults

  datatype ConfigValue =
    | Number(n: int)
    | Flag(b: bool)
    | Str(s: string)
    | FloodGuard(timesPerInterval: int, intervalLength: int, muteLength: int)

  /** The keys `load_config` fills in when the file leaves them out. */
  const DefaultKeys: set<string> :=
    {"music_change_floodguard", "wtce_floodguard", "log_size", "log_backups"}

  function DefaultValue(key: string): ConfigValue
    requires key in DefaultKeys
  {
    if key == "log_size" then Number(1048576)
    else if key == "log_backups" then Number(5)
    else FloodGuard(1, 0, 0)
  }

  /** One of the membership tests in `load_config`: when `key` is missing
      from the configuration it is added with `v`; otherwise nothing changes. */
  function PutIfMissing(cfg: map<string, ConfigValue>, key: string, v: ConfigValue): (r: map<string, ConfigValue>)
    ensures r.Keys == cfg.Keys + {key}
    ensures forall k :: k in cfg ==> r[k] == cfg[k]
    ensures key !in cfg ==> r[key] == v
  {
    if key in cfg then cfg else cfg[key := v]
  }

  /** The key-defaulting of `load_config`: every missing default key gets
      its default, every key present keeps its value. */
  function WithDefaults(cfg: map<string, ConfigValue>): (r: map<string, ConfigValue>)
    ensures r.Keys == cfg.Keys + DefaultKeys
    ensures forall k :: k in cfg ==> r[k] == cfg[k]
    ensures forall k :: k in DefaultKeys && k !in cfg ==> r[k] == DefaultValue(k)
  {
    var c1 := PutIfMissing(cfg, "music_change_floodguard", FloodGuard(1, 0, 0));
    var c2 := PutIfMissing(c1, "wtce_floodguard", FloodGuard(1, 0, 0));
    var c3 := PutIfMissing(c2, "log_size", Number(1048576));
    var c4 := PutIfMissing(c3, "log_backups", Number(5));
    DefaultsFilled(cfg, c1, c2, c3, c4);
    c4
  }

  lemma DefaultsFilled(cfg: map<string, ConfigValue>, c1: map<string, ConfigValue>, c2: map<string, ConfigValue>,
                       c3: map<string, ConfigValue>, c4: map<string, ConfigValue>)
    requires c1 == PutIfMissing(cfg, "music_change_floodguard", FloodGuard(1, 0, 0))
    requires c2 == PutIfMissing(c1, "wtce_floodguard", FloodGuard(1, 0, 0))
    requires c3 == PutIfMissing(c2, "log_size", Number(1048576))
    requires c4 == PutIfMissing(c3, "log_backups", Number(5))
    ensures c4.Keys == cfg.Keys + DefaultKeys
    ensures forall k :: k in cfg ==> c4[k] == cfg[k]
    ensures forall k :: k in DefaultKeys && k !in cfg ==> c4[k] == DefaultValue(k)
  {
    forall k | k in DefaultKeys && k !in cfg
      ensures c4[k] == DefaultValue(k)
    {
      if k == "music_change_floodguard" {
        assert c1[k] == FloodGuard(1, 0, 0);
      } else if k == "wtce_floodguard" {
        assert c2[k] == FloodGuard(1, 0, 0);
      } else if k == "log_size" {
        assert c3[k] == Number(1048576);
      } else {
        assert k == "log_backups";
      }
    }
  }

  /** Filling in defaults twice changes nothing more. */
  lemma WithDefaultsIdempotent(cfg: map<string, ConfigValue>)
    ensures WithDefaults(WithDefaults(cfg)) == WithDefaults(cfg)
  {
  }

  // ---------------------------------------------------------------- the server

  class Server {
    /** `area_manager.areas`, by name; an area's id is its position. */
    const areaNames: seq<string>
    const charList: seq<string>
    const musicList: seq<Category>
    const useDistrict: bool
    const hostname: string
    const serverNumber: int

    const release: nat := 3
    const majorVersion: nat := 2
    const minorVersion: nat := 0

    var charPagesAo1: seq<seq<string>>
    var musicPagesAo1: seq<seq<string>>
    var musicListAo2: seq<string>

    /** `client_manager.clients`, in registry order. */
    var clients: seq<Client>
    /** The member set of each area, as client ids. */
    var members: seq<set<nat>>
    var loadedIps: map<string, nat>
    var rpMode: bool

    /** Every `send_command` performed, in order. */
    var sent: seq<Delivery>
    /** Every `district_client.send_raw_message`, in order. */
    var district: seq<string>

    /** The registry invariant: there is at least one area, ids are unique,
        every client's area exists and each area's member set is exactly the
        clients whose area it is. */
    ghost predicate Valid()
      reads this
    {
      |areaNames| > 0 && Registry(|areaNames|, clients, members)
    }

    /** The compiled catalogs match the static ones. */
    ghost predicate Built()
      reads this
    {
      && charPagesAo1 == Pages(CharRows(charList))
      && musicPagesAo1 == Pages(Numbered(Labels(areaNames, musicList)))
      && musicListAo2 == Labels(areaNames, musicList)
    }

    /** The state after loading the static catalogs: nobody connected, both
        projections built. At least one area is needed so that a default
        area exists for new clients. */
    constructor (areas: seq<string>, chars: seq<string>, music: seq<Category>,
                 useDistrict: bool, hostname: string, serverNumber: int)
      requires |areas| > 0
      ensures Valid() && Built()
      ensures areaNames == areas && charList == chars && musicList == music
      ensures this.useDistrict == useDistrict && this.hostname == hostname
      ensures this.serverNumber == serverNumber
      ensures clients == [] && loadedIps == map[] && !rpMode && sent == [] && district == []
    {
      areaNames := areas;
      charList := chars;
      musicList := music;
      this.useDistrict := useDistrict;
      this.hostname := hostname;
      this.serverNumber := serverNumber;
      charPagesAo1 := [];
      musicPagesAo1 := [];
      musicListAo2 := [];
      clients := [];
      members := seq(|areas|, a => {});
      loadedIps := map[];
      rpMode := false;
      sent := [];
      district := [];
      new;
      BuildCharPagesAo1();
      BuildMusicPagesAo1();
      BuildMusicListAo2();
    }

    /** `build_char_pages_ao1`: slice the character list into pages of ten,
        then overwrite slot `[i // 10][i % 10]` with row `i`. */
    method BuildCharPagesAo1()
      modifies this`charPagesAo1
      ensures charPagesAo1 == Pages(CharRows(charList))
    {
      var n := |charList|;
      var pages := Pages(charList);
      OverwriteStart(charList);
      var i := 0;
      while i < n
        invariant 0 <= i <= n && Overwritten(pages, charList, i)
      {
        OverwriteStep(pages, charList, i);
        pages := pages[i / PageSize := pages[i / PageSize][i % PageSize := CharRow(i, charList[i])]];
        i := i + 1;
      }
      OverwriteDone(pages, charList);
      charPagesAo1 := pages;
    }

    /** `build_music_pages_ao1`: one running index over the areas, then each
        category and its songs, as `"{index}#{name}"` rows cut into pages
        of ten. */
    method BuildMusicPagesAo1()
      modifies this`musicPagesAo1
      ensures musicPagesAo1 == Pages(Numbered(Labels(areaNames, musicList)))
    {
      var rows: seq<string> := [];
      var index: nat := 0;
      ghost var done: seq<string> := [];
      var a := 0;
      while a < |areaNames|
        invariant 0 <= a <= |areaNames|
        invariant done == areaNames[..a] && rows == Numbered(done) && index == |done|
      {
        NumberedSnoc(done, areaNames[a]);
        rows := rows + [MusicRow(index, areaNames[a])];
        done := done + [areaNames[a]];
        index := index + 1;
        a := a + 1;
      }
      assert done == areaNames + MusicLabels(musicList[..0]);
      var j := 0;
      while j < |musicList|
        invariant 0 <= j <= |musicList|
        invariant done == areaNames + MusicLabels(musicList[..j]) && rows == Numbered(done) && index == |done|
      {
        var item := musicList[j];
        ghost var before := done + [item.name];
        NumberedSnoc(done, item.name);
        rows := rows + [MusicRow(index, item.name)];
        done := done + [item.name];
        index := index + 1;
        var s := 0;
        assert item.songs[..0] == [];
        while s < |item.songs|
          invariant 0 <= s <= |item.songs|
          invariant done == before + SongNames(item.songs[..s])
          invariant rows == Numbered(done) && index == |done|
        {
          NumberedSnoc(done, item.songs[s].name);
          SongNamesSnoc(before, item.songs, s);
          rows := rows + [MusicRow(index, item.songs[s].name)];
          done := done + [item.songs[s].name];
          index := index + 1;
          s := s + 1;
        }
        CategoryDone(areaNames, musicList, j);
        j := j + 1;
      }
      assert musicList[..j] == musicList;
      musicPagesAo1 := Pages(rows);
    }

    /** `build_music_list_ao2`: the same names as a flat list, areas first,
        then each category followed by its songs. */
    method BuildMusicListAo2()
      modifies this`musicListAo2
      ensures musicListAo2 == Labels(areaNames, musicList)
    {
      var list: seq<string> := [];
      var a := 0;
      while a < |areaNames|
        invariant 0 <= a <= |areaNames| && list == areaNames[..a]
      {
        list := list + [areaNames[a]];
        a := a + 1;
      }
      assert list == areaNames + MusicLabels(musicList[..0]);
      var j := 0;
      while j < |musicList|
        invariant 0 <= j <= |musicList| && list == areaNames + MusicLabels(musicList[..j])
      {
        var item := musicList[j];
        list := list + [item.name];
        ghost var before := list;
        var s := 0;
        assert item.songs[..0] == [];
        while s < |item.songs|
          invariant 0 <= s <= |item.songs| && list == before + SongNames(item.songs[..s])
        {
          SongNamesSnoc(before, item.songs, s);
          list := list + [item.songs[s].name];
          s := s + 1;
        }
        CategoryDone(areaNames, musicList, j);
        j := j + 1;
      }
      assert musicList[..j] == musicList;
      musicListAo2 := list;
    }

    /** `get_version_string`. */
    function GetVersionString(): (v: string)
      ensures v == "3.2.0"
    {
      Version(release, majorVersion, minorVersion)
    }

    /** `get_ipid` with this server's `server_number`. */
    function GetIpid(ip: string, sha256: string -> string): (id: string)
      requires IsHexDigest(sha256(ip + IntToString(serverNumber)))
      ensures |id| == 12 && id <= sha256(ip + IntToString(serverNumber))
    {
      Ipid(ip, serverNumber, sha256)
    }

    /** `get_player_count`: the number of connected clients. */
    function GetPlayerCount(): (n: nat)
      reads this
      requires Valid()
      ensures n == |IdSet(clients)|
    {
      IdSetSize(clients);
      |clients|
    }

    /** Every registered client is in its own area's member set and in no
        other. */
    lemma InExactlyOneArea(i: nat)
      requires Valid() && i < |clients|
      ensures forall a :: 0 <= a < |members| ==> (clients[i].id in members[a] <==> a == clients[i].area)
    {
      forall a | 0 <= a < |members| ensures clients[i].id in members[a] <==> a == clients[i].area {
        if clients[i].id in members[a] {
          var j :| 0 <= j < |clients| && clients[j].area == a && clients[j].id == clients[i].id;
          assert j == i;
        }
      }
    }

    /** `new_client`: register the record the client manager made, count
        one more connection from its address, flag it as role-playing when
        the server is in RP mode, and put it in the default area. */
    method NewClient(made: Client) returns (c: Client)
      requires Valid()
      requires forall i :: 0 <= i < |clients| ==> clients[i].id != made.id
      modifies this`clients, this`members, this`loadedIps
      ensures Valid()
      ensures c == made.(area := 0, inRp := rpMode || made.inRp)
      ensures clients == old(clients) + [c]
      ensures members == old(members)[0 := old(members)[0] + {c.id}]
      ensures loadedIps == CountConnection(old(loadedIps), made.ip)
      ensures GetPlayerCount() == old(GetPlayerCount()) + 1
    {
      var ip := made.ip;
      if ip !in loadedIps {
        loadedIps := loadedIps[ip := 0];
      }
      loadedIps := loadedIps[ip := loadedIps[ip] + 1];
      c := made;
      if rpMode {
        c := c.(inRp := true);
      }
      c := c.(area := 0);
      RegistryAdd(|areaNames|, clients, members, c);
      clients := clients + [c];
      members := members[0 := members[0] + {c.id}];
    }

    /** `remove_client`: take the client out of its area, then out of the
        registry. A client that is not registered makes the source raise;
        here it is reported and nothing changes. */
    method RemoveClient(id: nat) returns (ok: bool)
      requires Valid()
      modifies this`clients, this`members
      ensures Valid()
      ensures ok <==> exists i :: 0 <= i < |old(clients)| && old(clients)[i].id == id
      ensures ok ==> var k := IndexOfId(old(clients), id);
        && clients == old(clients)[..k] + old(clients)[k + 1..]
        && members == old(members)[old(clients)[k].area := old(members)[old(clients)[k].area] - {id}]
      ensures ok ==> GetPlayerCount() == old(GetPlayerCount()) - 1
      ensures forall i :: 0 <= i < |clients| ==> clients[i].id != id
      ensures !ok ==> clients == old(clients) && members == old(members)
    {
      var k := IndexOfId(clients, id);
      if k == |clients| {
        return false;
      }
      var a := clients[k].area;
      RegistryRemove(|areaNames|, clients, members, k);
      members := members[a := members[a] - {id}];
      clients := clients[..k] + clients[k + 1..];
      ok := true;
    }

    /** `send_all_cmd_pred`: one `send_command(cmd, *args)` to each registered
        client satisfying `pred`, in registry order. */
    method SendAllCmdPred(cmd: string, args: seq<string>, pred: Client -> bool)
      modifies this`sent
      ensures sent == old(sent) + Deliveries(clients, cmd, args, pred)
    {
      var i := 0;
      while i < |clients|
        invariant 0 <= i <= |clients|
        invariant sent == old(sent) + Deliveries(clients[..i], cmd, args, pred)
      {
        assert clients[..i + 1][..i] == clients[..i];
        if pred(clients[i]) {
          sent := sent + [Delivery(clients[i].id, cmd, args)];
        }
        i := i + 1;
      }
      assert clients[..i] == clients;
    }

    /** `broadcast_global`: `CT` with the global header to every client not
        muting global chat, and the `GLOBAL` event to the district peer
        exactly when `use_district` is set. */
    method BroadcastGlobal(sender: Client, msg: string, asMod: bool)
      modifies this`sent, this`district
      ensures sent == old(sent) + Deliveries(clients, "CT", [GlobalHeader(sender.area, sender.charName, asMod), msg], NotMutedGlobal)
      ensures district == old(district) + (if useDistrict then [GlobalEvent(asMod, sender.area, sender.charName, msg)] else [])
    {
      var charName := sender.charName;
      var oocName := "<dollar>G[" + NatToString(sender.area) + "][" + charName + "]";
      if asMod {
        oocName := oocName + "[M]";
      }
      assert oocName == GlobalHeader(sender.area, charName, asMod);
      SendAllCmdPred("CT", [oocName, msg], NotMutedGlobal);
      if useDistrict {
        district := district + [GlobalEvent(asMod, sender.area, charName, msg)];
      }
    }

    /** `broadcast_need`: the advert banner under the host name to every
        client not muting adverts, and the `NEED` event to the district peer
        exactly when `use_district` is set. */
    method BroadcastNeed(sender: Client, msg: string)
      requires sender.area < |areaNames|
      modifies this`sent, this`district
      ensures sent == old(sent) + Deliveries(clients, "CT",
        [hostname, AdvertBanner(sender.charName, areaNames[sender.area], sender.area, msg)], NotMutedAdverts)
      ensures district == old(district)
        + (if useDistrict then [NeedEvent(sender.charName, areaNames[sender.area], sender.area, msg)] else [])
    {
      var charName := sender.charName;
      var areaName := areaNames[sender.area];
      var areaId := sender.area;
      SendAllCmdPred("CT", [hostname, AdvertBanner(charName, areaName, areaId, msg)], NotMutedAdverts);
      if useDistrict {
        district := district + [NeedEvent(charName, areaName, areaId, msg)];
      }
    }
  }

  /** With `use_district` off, global chat reaches the connected client and
      the district link is never used. */
  method DistrictOffScenario()
  {
    var server := new Server(["Courtroom", "Lobby"], ["Phoenix"], [], false, "host", 1);
    var phoenix := server.NewClient(Client(7, "10.0.0.1", 1, "Phoenix", false, false, false));
    assert server.clients == [phoenix] && server.loadedIps["10.0.0.1"] == 1;
    server.BroadcastGlobal(phoenix, "hello", true);
    var args := [GlobalHeader(0, "Phoenix", true), "hello"];
    assert Deliveries([phoenix], "CT", args, NotMutedGlobal) == [Delivery(7, "CT", args)];
    assert server.sent == [Delivery(7, "CT", args)];
    assert server.district == [];
  }
}
