# tsuserver3 coordination core, in Dafny

A model of the server-wide layer of tsuserver3, an Attorney Online server
(`TsuServer3` in `server/tsuserver.py`): the catalog compiler that exposes the
areas, characters and music both as legacy (AO1) pages of ten numbered rows
and as the current (AO2) flat list; the character and song lookups; the
broadcast router with its global-chat and advert messages and the optional
district relay; the connection registry with the per-address connection
counter and the area member sets; the pseudonymous IPID and the version
string.

Files (one module each):

- `wrappers.dfy` — `Option`, and `Result` whose `Err` carries the
  `ServerError` message.
- `text.dfy` — `str(n)` for naturals and its inverse, `str(i)` for any integer, `split`/`join` on one character
  with their round trip, ASCII `lower`.
- `catalog.dfy` — the pure side of the catalog compiler: paging, row
  formats and what a client decodes from a row, the shared label order,
  the scan order of `get_song_data`, and the two lookups as loop methods.
- `routing.dfy` — client records, the delivery log, the set of deliveries
  `send_all_cmd_pred` makes, and the header, banner and district-event
  formats.
- `server.dfy` — the `Server` class: the fields `TsuServer3` mutates
  (registry, area member sets, `loaded_ips`, `rp_mode`, the compiled
  catalogs) plus two logs standing for `client.send_command` and
  `district_client.send_raw_message`; the imperative builders, the
  registry methods and the broadcasts; `get_ipid`, `get_version_string`
  and the key-defaulting of `load_config`.

Modelling choices:

- A client is a value record with a connection id. The registry is a
  sequence in registration order, and delivery follows that order. The
  client manager gives each live client a unique id. `NewClient` therefore
  requires an id no registered client holds and receives the record the
  client manager built.
- An area is its position in `areaNames`. Its member set is a set of
  client ids. `Valid()` says each area's member set is exactly the set of
  clients whose area it is, so every client is in exactly one area.
- The character list, the music list and the area list are fixed at
  load time. The lookups take them as arguments.
- The digest used by `get_ipid` is a function parameter. The only
  assumption is that its value on the hashed string is 64 lowercase hex
  characters.
- The district global event is `GLOBAL#{int(as_mod)}#{area id}#{char}#{msg}`,
  with the moderator flag as its own field. `get_song_data` checks each
  category's name just before that category's songs.
- `loaded_ips` is a map from address to count. `CountConnection` gives the
  map after one more connection from an address.

## Model

| member | source | states |
|---|---|---|
| Text.NatToString | server/tsuserver.py:101 | `str(n)` is non-empty, all decimal digits, no leading zero |
| Text.IntToString | server/tsuserver.py:169 | `str(server_number)`: non-empty, a leading `-` exactly for a negative number, digits otherwise |
| Text.SplitCons | server/tsuserver.py:254 | a separator-free field, the separator and a tail split into that field, then the pieces of the tail |
| Text.JoinSplit | server/tsuserver.py:254 | joining the pieces of a split gives the text back, whatever it holds |
| Text.Lower | server/tsuserver.py:225 | `str.lower` on ASCII letters, character by character; the length is kept |
| Text.ParseNatToString | server/tsuserver.py:191 | the decimal text of an index reads back as that index |
| Text.NatToStringInjective | server/tsuserver.py:198 | distinct indices print as distinct strings |
| Text.SplitJoin | server/tsuserver.py:253-254 | splitting `#`-joined fields gives them back when no field holds `#` |
| Text.IndexOf | server/tsuserver.py:198 | the first separator position, used by a client decoding a row |
| Catalog.Pages | server/tsuserver.py:189-207 | the slices of ten consecutive rows, ceil(n/10) of them, the last possibly shorter; used for the character pages (line 189) and the music pages (line 207) |
| Catalog.PagesArePaged | server/tsuserver.py:189 | the chunking puts row `10p+o` at page `p`, offset `o`, with ceil(n/10) pages |
| Catalog.PageShape | server/tsuserver.py:189 | ceil(n/10) pages, all but the last exactly ten rows, the last one to ten |
| Catalog.PageSlot | server/tsuserver.py:190-191 | row `i` is at page `i // 10`, offset `i % 10` |
| Catalog.PagedUnique | server/tsuserver.py:189-191 | a page layout of a row sequence is determined by the rows |
| Catalog.ConcatPages | server/tsuserver.py:207 | concatenating the pages gives back every row, in order |
| Catalog.CharRow | server/tsuserver.py:191 | the character row: index, `#`, name, the fixed trailer `&&0&&&0&` |
| Catalog.CharRows | server/tsuserver.py:190-191 | every character's row, written with index = its position in the list |
| Catalog.MusicRow | server/tsuserver.py:198-205 | the legacy music row: running index, `#`, then the area, category or song name (lines 198, 202, 205) |
| Catalog.Numbered | server/tsuserver.py:195-206 | the labels numbered by one running `index` that starts at 0 and rises by one per row |
| Catalog.RowDecodes | server/tsuserver.py:191 | a decimal index, `#` and any text decode to that index and that text |
| Catalog.NumberedSnoc | server/tsuserver.py:198-199 | appending one more label appends its row under the next index |
| Catalog.Overwritten | server/tsuserver.py:189-191 | the character pages part-way through the rewrite: plain list layout, first `i` slots already rows |
| Catalog.OverwriteStep | server/tsuserver.py:190-191 | writing row `i` into slot `[i // 10][i % 10]` moves the rewritten boundary by one |
| Catalog.OverwriteDone | server/tsuserver.py:188-191 | once every slot is rewritten, the pages are exactly the pages of the character rows |
| Catalog.MusicRowDecodes | server/tsuserver.py:198 | `"{k}#{label}"` decodes to `k` and `label`, whatever the label holds |
| Catalog.CharRowDecodes | server/tsuserver.py:191 | `"{i}#{name}&&0&&&0&"` decodes to `i` and the name with its fixed trailer |
| Catalog.CharSlot | server/tsuserver.py:188-191 | the slot of character `i` holds `"{i}#{char_list[i]}&&0&&&0&"` and decodes to `i` |
| Catalog.MusicLabels | server/tsuserver.py:200-218 | the music part of both label orders: each category name followed by its songs' names (lines 200-206 and 215-218) |
| Catalog.CategoryLabels | server/tsuserver.py:202-218 | one category's name, then its songs' names in order (legacy lines 202-205, AO2 lines 216-218) |
| Catalog.Labels | server/tsuserver.py:197-218 | the label order both generations share: every area, then the music part (legacy lines 197-206, AO2 lines 212-218) |
| Catalog.MusicLabelsLength | server/tsuserver.py:200-206 | the music part has one label per category and one per song |
| Catalog.LabelsLength | server/tsuserver.py:209-218 | the flat list has #areas + sum over categories of (1 + #songs) entries |
| Catalog.MusicLabelsPrefix | server/tsuserver.py:215-218 | the labels of the first `j` categories are a prefix of the music labels |
| Catalog.SongNamesSnoc | server/tsuserver.py:204-205 | appending the next song name extends the names of the songs so far |
| Catalog.CategoryDone | server/tsuserver.py:201-206 | a category's name followed by all its songs' names completes one more category of labels |
| Catalog.AreaPosition | server/tsuserver.py:197-199 | area `a` sits at position `a` |
| Catalog.CategoryPosition | server/tsuserver.py:201-206 | category `j` sits after the areas and all earlier rows, its songs right after it in order |
| Catalog.SongPosition | server/tsuserver.py:203-205 | song `s` of category `j` sits `s + 1` rows after the category's row |
| Catalog.ProjectionsAgree | server/tsuserver.py:193-218 | legacy music row `k` decodes to `k` and to element `k` of the flat list; the pages hold exactly those rows |
| Catalog.IsValidCharId | server/tsuserver.py:220-221 | an id is valid exactly when it names a slot of the character pages |
| Catalog.CharMatches | server/tsuserver.py:225 | position `i` holds a character whose lowered name equals the lowered query |
| Catalog.GetCharIdByName | server/tsuserver.py:223-227 | the smallest case-insensitively matching position, a valid id; `Character not found.` exactly when none matches |
| Catalog.SongLength | server/tsuserver.py:235-238 | a song's reported length: its `length`, or `-1` when the key is missing |
| Catalog.CategoryEntries | server/tsuserver.py:232-236 | what one category contributes to the scan: its own entry with `-1`, then each song with its length |
| Catalog.Entries | server/tsuserver.py:230-238 | the whole scan order: the categories' entries one category after another |
| Catalog.EntryNames | server/tsuserver.py:229-234 | the names `get_song_data` scans are the music part of the flat list, position by position |
| Catalog.EntriesPrefix | server/tsuserver.py:230 | the entries of the first `j` categories are a prefix of the scan order |
| Catalog.EntriesAt | server/tsuserver.py:230-233 | category `i` sits right after the entries of the categories before it, with `-1` |
| Catalog.EntriesSongAt | server/tsuserver.py:234-238 | song `s` of category `i` sits `s + 1` entries after that category, with its length |
| Catalog.GetSongData | server/tsuserver.py:229-239 | the earliest match in scan order, `-1` for a category or a song without length; `Music not found.` exactly when nothing matches |
| Catalog.SmallCatalog | server/tsuserver.py:209-238 | two areas and one category give the flat list `[Courtroom, Lobby, Theme, Main, Cross]`; `Cross` has length `-1` |
| Catalog.TwelveCharacters | server/tsuserver.py:189 | twelve characters take two pages, of ten and two rows |
| Routing.CountToAppend | server/tsuserver.py:244 | deliveries to one client add up over concatenated logs |
| Routing.DeliveriesSound | server/tsuserver.py:241-244 | one delivery per client satisfying the predicate, each carrying the command and arguments given |
| Routing.DeliveriesExactlyOnce | server/tsuserver.py:242-244 | with unique ids, each client gets exactly one copy iff it satisfies the predicate |
| Routing.NoneTo | server/tsuserver.py:242 | an unregistered client receives nothing |
| Routing.Deliveries | server/tsuserver.py:242-244 | one `send_command(cmd, *args)` to each client that satisfies the predicate, in registry order |
| Routing.NotMutedGlobal | server/tsuserver.py:251 | the global-chat filter: the client has not muted global chat |
| Routing.NotMutedAdverts | server/tsuserver.py:262 | the advert filter: the client has not muted adverts |
| Routing.NobodyGetsNothing | server/tsuserver.py:243 | an always-false predicate delivers nothing |
| Routing.EverybodyGetsOne | server/tsuserver.py:241 | the default always-true predicate gives every client one copy, in registry order |
| Routing.GlobalHeader | server/tsuserver.py:248-250 | the OOC name `<dollar>G[{area id}][{char}]`, with `[M]` appended for a moderator |
| Routing.GlobalHeaderTag | server/tsuserver.py:248-250 | the moderator header is the plain header with `[M]` appended; the two always differ |
| Routing.AdvertBanner | server/tsuserver.py:261 | the advert text: banner line, `{char} in {area} [{id}] needs {msg}`, closing rule |
| Routing.GlobalEvent | server/tsuserver.py:254 | the district message `GLOBAL#{int(as_mod)}#{area id}#{char}#{msg}` |
| Routing.NeedEvent | server/tsuserver.py:264 | the district message `NEED#{char}#{area name}#{area id}#{msg}` |
| Routing.SplitFourThenRest | server/tsuserver.py:254 | four separator-free fields and a tail split into those fields, then the pieces of the tail |
| Routing.GlobalEventFields | server/tsuserver.py:253-254 | the `GLOBAL` event splits into kind, `int(as_mod)`, area id and character, then pieces that join back into the message, whatever it holds |
| Routing.NeedEventFields | server/tsuserver.py:264 | the `NEED` event splits into kind, character, area name and area id, then pieces that join back into the message, whatever it holds |
| TsuServer.IndexOfId | server/tsuserver.py:118 | the registry position of a client, or the registry length when it is absent |
| TsuServer.MembersSnoc | server/tsuserver.py:112-113 | registering a client adds its id to its own area's members only |
| TsuServer.MembersRemove | server/tsuserver.py:116-118 | removing a client takes exactly its id out of every area's members |
| TsuServer.DistinctRemove | server/tsuserver.py:118 | removal keeps ids unique and leaves the removed id absent |
| TsuServer.IdSetSize | server/tsuserver.py:120-121 | with unique ids, the registry length equals the number of connected ids |
| TsuServer.Registry | server/tsuserver.py:103-121 | the registry invariant: unique ids, every client's area exists, each area's set is exactly its clients |
| TsuServer.RegistryAdd | server/tsuserver.py:112-114 | appending a fresh client in area 0 and adding its id there keeps the invariant |
| TsuServer.RegistryRemove | server/tsuserver.py:116-118 | removing a client from its area's set and from the registry keeps the invariant |
| TsuServer.CountConnection | server/tsuserver.py:105-108 | `loaded_ips[ip]` goes up by one from its value or from 0; every other address keeps its count |
| TsuServer.Ipid | server/tsuserver.py:168-172 | 12 lowercase hex characters, a prefix of the digest of address + `str(server_number)` |
| TsuServer.Version | server/tsuserver.py:101 | the three version numbers in decimal, joined by `.` |
| TsuServer.VersionFields | server/tsuserver.py:100-101 | the version string splits on `.` into the three numbers it was built from |
| TsuServer.DefaultKeys | server/tsuserver.py:127-134 | the four keys `load_config` fills in when missing |
| TsuServer.DefaultValue | server/tsuserver.py:127-134 | their literal defaults: both flood guards `1, 0, 0`, `log_size` 1048576, `log_backups` 5 |
| TsuServer.PutIfMissing | server/tsuserver.py:127-128 | one `if key not in config`: the key is present afterwards, old values kept, the given value only when it was missing |
| TsuServer.DefaultsFilled | server/tsuserver.py:127-134 | the four defaulting steps together add exactly the default keys, each with its default, and keep every present value |
| TsuServer.WithDefaults | server/tsuserver.py:127-134 | missing default keys get their defaults, present keys keep their values, no other key appears |
| TsuServer.WithDefaultsIdempotent | server/tsuserver.py:127-134 | filling in defaults a second time changes nothing |
| TsuServer.Server.Valid | server/tsuserver.py:103-121 | the object invariant: at least one area, and the registry invariant over the areas |
| TsuServer.Server.Built | server/tsuserver.py:188-218 | the three compiled catalogs are the pages and flat list of the static catalogs |
| TsuServer.Server.constructor | server/tsuserver.py:145-154 | after loading: no clients, no counts, both projections built from the static catalogs |
| TsuServer.Server.BuildCharPagesAo1 | server/tsuserver.py:188-191 | the in-place overwrite loop leaves exactly the pages of the character rows |
| TsuServer.Server.BuildMusicPagesAo1 | server/tsuserver.py:193-207 | the running-index loops give the pages of the numbered flat labels |
| TsuServer.Server.BuildMusicListAo2 | server/tsuserver.py:209-218 | the nested loops give areas, then each category followed by its songs |
| TsuServer.Server.GetVersionString | server/tsuserver.py:100-101 | the version string is `3.2.0` |
| TsuServer.Server.GetIpid | server/tsuserver.py:168-172 | 12 characters, a prefix of the digest keyed by this server's number |
| TsuServer.Server.GetPlayerCount | server/tsuserver.py:120-121 | the number of distinct connected clients |
| TsuServer.Server.InExactlyOneArea | server/tsuserver.py:112-118 | a registered client is a member of its own area and of no other |
| TsuServer.Server.NewClient | server/tsuserver.py:103-114 | `loaded_ips` becomes `CountConnection` of its old value; in_rp set in RP mode; client appended and added to the default area; count up by one |
| TsuServer.Server.RemoveClient | server/tsuserver.py:116-118 | client taken out of its area and the registry, order kept, count down by one; an unregistered id changes nothing |
| TsuServer.Server.SendAllCmdPred | server/tsuserver.py:241-244 | the log grows by exactly the deliveries to matching clients, in registry order |
| TsuServer.Server.BroadcastGlobal | server/tsuserver.py:246-254 | `CT` with the global header to clients not muting global; one `GLOBAL` event iff `use_district` |
| TsuServer.Server.BroadcastNeed | server/tsuserver.py:256-264 | `CT` with the host name and advert banner to clients not muting adverts; one `NEED` event iff `use_district` |

## Left out

- `start()`: the asyncio loop, bind address choice (`local`), socket setup and shutdown are I/O and concurrency.
- District and masterserver connection setup and the masterserver link: network clients. Only the `use_district` gate and the district message shapes are kept, through the `district` log.
- Reading and writing YAML/JSON (`load_config` file part and the `motd` newline rewrite, `load_ids`, `load_iniswaps`, `load_characters`/`load_music` file parts, `load_backgrounds`, `load_data`, `save_data`, `save_id`) and logger setup: file I/O. The static catalogs are constructor arguments.
- `enable_features`: it only adds a feature name to a set that this model never reads.
- SHA-256 itself: a foreign library call, taken as a parameter of `Ipid`.
- Text.Lower: handles ASCII letters only, not Python's Unicode `str.lower`.
- TsuServer.Ipid: proves the 12-character truncation and the hex alphabet, and nothing about the digest beyond its assumed shape. Determinism holds because it is a function.
- The internals of `ClientManager`, `AreaManager`, `BanManager`, `AOProtocol` and `send_command` are not part of this model. The choice of a fresh client id belongs to `ClientManager` and is a precondition of `NewClient`. Moderation commands that flip mute flags live outside this core.
- TsuServer.Server.constructor: requires at least one area. The source builders accept an empty area list; only the area manager's `default_area`, which is not part of this model, would fail later, when a client connects.
- TsuServer.Server.RemoveClient: for an unregistered client the source raises from the area's member-set removal. The model returns `false` and leaves registry and areas unchanged; it does not model the exception.
- In the source, `client_manager.clients` is a Python set with unspecified iteration order. The model fixes registration order.
- The catalog values are typed here: names are strings and a song length is an integer. YAML could supply other types.
- Concurrency: there is none in this model. Every method runs atomically, matching the single-threaded event loop.
