/** The catalog compiler: the legacy (AO1) paged rows and the current (AO2)
    flat list built from the areas, the character list and the music list,
    and the name lookups over them. Clients resolve a selection by its
    position alone, so the statements here are about positions. */
module Catalog {
  import opened Wrappers
  import opened Text

  /** One entry of `music.yaml`: a song with an optional `length`. */
  datatype Song = Song(name: string, length: Option<int>)

  /** A `category` with its `songs`, in file order. */
  datatype Category = Category(name: string, songs: seq<Song>)

  /** The number of rows on a full legacy page. */
  const PageSize: nat := 10

  function Min(a: int, b: int): int { if a <= b then a else b }

  /** `ceil(n / 10)`, the number of pages `n` rows take. */
  function NumPages(n: nat): nat { (n + PageSize - 1) / PageSize }

  /** The rows cut into consecutive slices of ten, the last one possibly
      shorter. */
  function Pages<T>(s: seq<T>): (pages: seq<seq<T>>)
    ensures |pages| == NumPages(|s|)
  {
    seq(NumPages(|s|), p requires 0 <= p < NumPages(|s|) =>
      s[p * PageSize .. Min(p * PageSize + PageSize, |s|)])
  }

  /** `pages` lays `s` out in pages of ten: page `p`, offset `o` holds
      `s[10 * p + o]`, every page but the last is full and none is empty. */
  ghost predicate Paged<T>(pages: seq<seq<T>>, s: seq<T>)
  {
    && |pages| == NumPages(|s|)
    && (forall p :: 0 <= p < |pages| ==> |pages[p]| == Min(PageSize, |s| - p * PageSize))
    && (forall p, o :: 0 <= p < |pages| && 0 <= o < |pages[p]| ==> pages[p][o] == s[p * PageSize + o])
  }

  /** Each row `10p + o` of `s` is at page `p`, offset `o`. */
  lemma PagesArePaged<T>(s: seq<T>)
    ensures Paged(Pages(s), s)
  {
  }

  function Concat<T>(pages: seq<seq<T>>): seq<T>
  {
    if pages == [] then [] else pages[0] + Concat(pages[1..])
  }

  /** The page shape: ceil(n/10) pages, all but the last holding exactly ten
      rows, the last holding one to ten. */
  lemma PageShape<T>(s: seq<T>)
    ensures |Pages(s)| * PageSize >= |s| > (|Pages(s)| - 1) * PageSize
    ensures forall p :: 0 <= p < |Pages(s)| - 1 ==> |Pages(s)[p]| == PageSize
    ensures |Pages(s)| > 0 ==> 0 < |Pages(s)[|Pages(s)| - 1]| <= PageSize
  {
  }

  /** Row `i` sits on page `i / 10` at offset `i % 10`. */
  lemma PageSlot<T>(s: seq<T>, i: nat)
    requires i < |s|
    ensures i / PageSize < |Pages(s)| && i % PageSize < |Pages(s)[i / PageSize]|
    ensures Pages(s)[i / PageSize][i % PageSize] == s[i]
  {
    var p, o := i / PageSize, i % PageSize;
    assert i == p * PageSize + o;
  }

  /** Two paged layouts of the same rows are the same pages. */
  lemma PagedUnique<T>(a: seq<seq<T>>, b: seq<seq<T>>, s: seq<T>)
    requires Paged(a, s) && Paged(b, s)
    ensures a == b
  {
    forall p | 0 <= p < |a| ensures a[p] == b[p] {
      assert |a[p]| == |b[p]|;
    }
  }

  lemma PagesTail<T>(s: seq<T>)
    requires |s| > PageSize
    ensures Pages(s)[0] == s[..PageSize]
    ensures Pages(s)[1..] == Pages(s[PageSize..])
  {
    var t := s[PageSize..];
    assert NumPages(|s|) == NumPages(|t|) + 1;
    forall p | 0 <= p < NumPages(|t|) ensures Pages(s)[1..][p] == Pages(t)[p] {
      var lo, hi := p * PageSize, Min(p * PageSize + PageSize, |t|);
      assert Pages(t)[p] == t[lo..hi];
      assert Pages(s)[1..][p] == Pages(s)[p + 1] == s[lo + PageSize .. hi + PageSize];
      assert t[lo..hi] == s[lo + PageSize .. hi + PageSize];
    }
  }

  /** Dropping the page boundaries gives back every row in order. */
  lemma {:induction false} ConcatPages<T>(s: seq<T>)
    ensures Concat(Pages(s)) == s
    decreases |s|
  {
    if |s| == 0 {
    } else if |s| <= PageSize {
      assert NumPages(|s|) == 1;
      assert Pages(s)[0] == s[0..|s|] == s;
      assert Pages(s) == [s];
      assert Concat(Pages(s)) == s + Concat(Pages(s)[1..]);
    } else {
      PagesTail(s);
      ConcatPages(s[PageSize..]);
      assert s == s[..PageSize] + s[PageSize..];
    }
  }

  // ---------------------------------------------------------------- rows

  /** The legacy character row: the index, `#`, the name and the fixed
      trailer `&&0&&&0&`. */
  function CharRow(i: nat, name: string): (row: string)
  {
    NatToString(i) + "#" + name + "&&0&&&0&"
  }

  lemma CharRowDecodes(i: nat, name: string)
    ensures DecodeRow(CharRow(i, name)) == Some((i, name + "&&0&&&0&"))
  {
    RowDecodes(i, name + "&&0&&&0&");
    assert CharRow(i, name) == NatToString(i) + "#" + (name + "&&0&&&0&");
  }

  /** The legacy music-list row: the index, `#`, the name. */
  function MusicRow(k: nat, title: string): (row: string)
  {
    NatToString(k) + "#" + title
  }

  lemma MusicRowDecodes(k: nat, title: string)
    ensures DecodeRow(MusicRow(k, title)) == Some((k, title))
  {
    RowDecodes(k, title);
  }

  /** Every character of the list turned into its row, index = position. */
  function CharRows(chars: seq<string>): (rows: seq<string>)
  {
    seq(|chars|, i requires 0 <= i < |chars| => CharRow(i, chars[i]))
  }

  /** The character pages part-way through the rewrite: laid out like the
      plain list, the first `i` slots already holding their rows. */
  ghost predicate Overwritten(pages: seq<seq<string>>, chars: seq<string>, i: nat)
  {
    && |pages| == NumPages(|chars|)
    && (forall p :: 0 <= p < |pages| ==> |pages[p]| == Min(PageSize, |chars| - p * PageSize))
    && (forall p, o :: 0 <= p < |pages| && 0 <= o < |pages[p]| ==>
          pages[p][o] == if p * PageSize + o < i then CharRow(p * PageSize + o, chars[p * PageSize + o])
                         else chars[p * PageSize + o])
  }

  lemma OverwriteStart(chars: seq<string>)
    ensures Overwritten(Pages(chars), chars, 0)
  {
    PagesArePaged(chars);
  }

  /** Rewriting slot `[i / 10][i % 10]` with row `i` moves the boundary by one. */
  lemma OverwriteStep(pages: seq<seq<string>>, chars: seq<string>, i: nat)
    requires Overwritten(pages, chars, i) && i < |chars|
    ensures i / PageSize < |pages| && i % PageSize < |pages[i / PageSize]|
    ensures Overwritten(pages[i / PageSize := pages[i / PageSize][i % PageSize := CharRow(i, chars[i])]], chars, i + 1)
  {
    var p, o := i / PageSize, i % PageSize;
    assert i == p * PageSize + o;
    var row := CharRow(i, chars[i]);
    var q := pages[p := pages[p][o := row]];
    forall p', o' | 0 <= p' < |q| && 0 <= o' < |q[p']|
      ensures q[p'][o'] == if p' * PageSize + o' < i + 1 then CharRow(p' * PageSize + o', chars[p' * PageSize + o'])
                           else chars[p' * PageSize + o']
    {
      SlotsDistinct(p, o, p', o');
      if p' == p && o' == o {
        assert q[p'][o'] == row;
      } else {
        assert q[p'][o'] == pages[p'][o'];
      }
    }
  }

  /** Distinct (page, offset) pairs name distinct rows. */
  lemma SlotsDistinct(p: nat, o: nat, p': nat, o': nat)
    requires o < PageSize && o' < PageSize
    ensures p * PageSize + o == p' * PageSize + o' <==> p == p' && o == o'
  {
  }

  /** With every slot rewritten, the pages are those of the character rows. */
  lemma OverwriteDone(pages: seq<seq<string>>, chars: seq<string>)
    requires Overwritten(pages, chars, |chars|)
    ensures pages == Pages(CharRows(chars))
  {
    var rows := CharRows(chars);
    PagesArePaged(rows);
    assert Paged(pages, rows);
    PagedUnique(pages, Pages(rows), rows);
  }

  /** Labels numbered by one running index from zero. */
  function Numbered(labels: seq<string>): seq<string>
  {
    seq(|labels|, k requires 0 <= k < |labels| => MusicRow(k, labels[k]))
  }

  /** Numbering one more label adds its row with the next index. */
  lemma NumberedSnoc(done: seq<string>, x: string)
    ensures Numbered(done + [x]) == Numbered(done) + [MusicRow(|done|, x)]
  {
  }

  /** What a client reads from a row: the number before the first `#`
      and the text after it. */
  function DecodeRow(row: string): Option<(nat, string)>
  {
    var i := IndexOf(row, '#');
    if i < |row| && AllDigits(row[..i]) then Some((ParseNat(row[..i]), row[i + 1..])) else None
  }

  /** An index, `#` and any text decode to that index and that text. */
  lemma RowDecodes(k: nat, title: string)
    ensures DecodeRow(NatToString(k) + "#" + title) == Some((k, title))
  {
    var d := NatToString(k);
    DigitsHaveNo(d, '#');
    FirstField(d, '#', title);
    IndexOfAfter(d, '#', title);
    assert (d + "#" + title)[..|d|] == d;
    ParseNatToString(k);
  }

  // ---------------------------------------------------------------- labels

  function SongNames(songs: seq<Song>): seq<string>
  {
    seq(|songs|, i requires 0 <= i < |songs| => songs[i].name)
  }

  /** A category contributes its own name, then its songs' names. */
  function CategoryLabels(c: Category): seq<string>
  {
    [c.name] + SongNames(c.songs)
  }

  lemma SongLabel(c: Category, s: nat)
    requires s < |c.songs|
    ensures |CategoryLabels(c)| == 1 + |c.songs|
    ensures CategoryLabels(c)[1 + s] == c.songs[s].name
  {
  }

  /** The music part of the catalog, one category after another: one row
      per category and one per song. */
  function MusicLabels(cats: seq<Category>): seq<string>
  {
    if cats == [] then []
    else MusicLabels(cats[..|cats| - 1]) + CategoryLabels(cats[|cats| - 1])
  }

  /** All areas in order, then the music part: the row order both protocol
      generations share, #areas + sum over categories of (1 + #songs) long. */
  function Labels(areas: seq<string>, cats: seq<Category>): seq<string>
  {
    areas + MusicLabels(cats)
  }

  /** The number of rows the music part takes: one per category plus one
      per song. */
  function RowCount(cats: seq<Category>): nat
  {
    if cats == [] then 0 else RowCount(cats[..|cats| - 1]) + 1 + |cats[|cats| - 1].songs|
  }

  /** The flat list has one row per area, per category and per song. */
  lemma LabelsLength(areas: seq<string>, cats: seq<Category>)
    ensures |Labels(areas, cats)| == |areas| + RowCount(cats)
  {
    MusicLabelsLength(cats);
  }

  lemma {:induction false} MusicLabelsLength(cats: seq<Category>)
    ensures |MusicLabels(cats)| == RowCount(cats)
    decreases |cats|
  {
    if cats != [] {
      MusicLabelsLength(cats[..|cats| - 1]);
      assert |CategoryLabels(cats[|cats| - 1])| == 1 + |cats[|cats| - 1].songs|;
    }
  }

  lemma MusicLabelsSnoc(cats: seq<Category>, j: nat)
    requires j < |cats|
    ensures MusicLabels(cats[..j + 1]) == MusicLabels(cats[..j]) + CategoryLabels(cats[j])
  {
    assert cats[..j + 1][..j] == cats[..j];
  }

  /** The music part of a prefix of the categories is a prefix of the
      music part. */
  lemma {:induction false} MusicLabelsPrefix(cats: seq<Category>, j: nat)
    requires j <= |cats|
    ensures MusicLabels(cats[..j]) <= MusicLabels(cats)
    decreases |cats| - j
  {
    if j < |cats| {
      MusicLabelsSnoc(cats, j);
      MusicLabelsPrefix(cats, j + 1);
    } else {
      assert cats[..j] == cats;
    }
  }

  /** One more song name extends the names of a song prefix. */
  lemma SongNamesSnoc(before: seq<string>, songs: seq<Song>, s: nat)
    requires s < |songs|
    ensures before + SongNames(songs[..s]) + [songs[s].name] == before + SongNames(songs[..s + 1])
  {
    assert SongNames(songs[..s + 1]) == SongNames(songs[..s]) + [songs[s].name];
  }

  /** Once a category's name and all its songs are appended, the labels
      cover one more category. */
  lemma CategoryDone(areas: seq<string>, cats: seq<Category>, j: nat)
    requires j < |cats|
    ensures areas + MusicLabels(cats[..j]) + [cats[j].name] + SongNames(cats[j].songs[..|cats[j].songs|])
            == areas + MusicLabels(cats[..j + 1])
  {
    MusicLabelsSnoc(cats, j);
    assert cats[j].songs[..|cats[j].songs|] == cats[j].songs;
  }

  /** Position of a category's own row: after the areas and every row of
      the categories before it; its songs follow it in order. */
  lemma CategoryPosition(areas: seq<string>, cats: seq<Category>, j: nat)
    requires j < |cats|
    ensures var start := |areas| + RowCount(cats[..j]);
      && start + |cats[j].songs| < |Labels(areas, cats)|
      && Labels(areas, cats)[start] == cats[j].name
      && forall s :: 0 <= s < |cats[j].songs| ==>
           Labels(areas, cats)[start + 1 + s] == cats[j].songs[s].name
  {
    MusicLabelsSnoc(cats, j);
    MusicLabelsPrefix(cats, j + 1);
    MusicLabelsLength(cats[..j]);
    var pre, all := MusicLabels(cats[..j + 1]), MusicLabels(cats);
    var m := RowCount(cats[..j]);
    assert CategoryLabels(cats[j])[0] == cats[j].name;
    assert |CategoryLabels(cats[j])| == 1 + |cats[j].songs|;
    assert pre == MusicLabels(cats[..j]) + CategoryLabels(cats[j]);
    assert Labels(areas, cats) == areas + all;
    assert Labels(areas, cats)[|areas| + m] == all[m] == pre[m] == cats[j].name;
    forall s | 0 <= s < |cats[j].songs|
      ensures Labels(areas, cats)[|areas| + RowCount(cats[..j]) + 1 + s] == cats[j].songs[s].name
    {
      SongPosition(areas, cats, j, s);
    }
  }

  /** Song `s` of category `j` comes `s + 1` rows after the category. */
  lemma SongPosition(areas: seq<string>, cats: seq<Category>, j: nat, s: nat)
    requires j < |cats| && s < |cats[j].songs|
    ensures |areas| + RowCount(cats[..j]) + 1 + s < |Labels(areas, cats)|
    ensures Labels(areas, cats)[|areas| + RowCount(cats[..j]) + 1 + s] == cats[j].songs[s].name
  {
    MusicLabelsSnoc(cats, j);
    MusicLabelsPrefix(cats, j + 1);
    MusicLabelsLength(cats[..j]);
    var pre, all := MusicLabels(cats[..j + 1]), MusicLabels(cats);
    var m := RowCount(cats[..j]);
    SongLabel(cats[j], s);
    assert pre == MusicLabels(cats[..j]) + CategoryLabels(cats[j]);
    assert Labels(areas, cats) == areas + all;
    assert all[m + 1 + s] == pre[m + 1 + s] == cats[j].songs[s].name;
  }

  /** The areas come first, each at its own id. */
  lemma AreaPosition(areas: seq<string>, cats: seq<Category>, a: nat)
    requires a < |areas|
    ensures Labels(areas, cats)[a] == areas[a]
  {
  }

  /** The two projections agree: row `k` of the legacy music pages, found
      at page `k / 10`, offset `k % 10`, decodes to index `k` and to the
      `k`-th element of the flat list, and the pages hold nothing else. */
  lemma ProjectionsAgree(areas: seq<string>, cats: seq<Category>)
    ensures var flat := Labels(areas, cats);
      var pages := Pages(Numbered(flat));
      && Concat(pages) == Numbered(flat)
      && |Concat(pages)| == |flat|
      && forall k :: 0 <= k < |flat| ==>
           k / PageSize < |pages| && k % PageSize < |pages[k / PageSize]|
           && DecodeRow(pages[k / PageSize][k % PageSize]) == Some((k, flat[k]))
  {
    var flat := Labels(areas, cats);
    ConcatPages(Numbered(flat));
    forall k | 0 <= k < |flat|
      ensures k / PageSize < |Pages(Numbered(flat))|
      ensures k % PageSize < |Pages(Numbered(flat))[k / PageSize]|
      ensures DecodeRow(Pages(Numbered(flat))[k / PageSize][k % PageSize]) == Some((k, flat[k]))
    {
      PageSlot(Numbered(flat), k);
      MusicRowDecodes(k, flat[k]);
    }
  }

  /** Character `i` sits on page `i / 10` at offset `i % 10` as
      the row of index `i` and that name, and a client reading it gets `i` back. */
  lemma CharSlot(chars: seq<string>, i: nat)
    requires i < |chars|
    ensures var pages := Pages(CharRows(chars));
      && i / PageSize < |pages| && i % PageSize < |pages[i / PageSize]|
      && pages[i / PageSize][i % PageSize] == CharRow(i, chars[i])
      && DecodeRow(pages[i / PageSize][i % PageSize]) == Some((i, chars[i] + "&&0&&&0&"))
  {
    PageSlot(CharRows(chars), i);
    CharRowDecodes(i, chars[i]);
  }

  // ---------------------------------------------------------------- lookups

  /** `is_valid_char_id`: the id lies between zero and the list length,
      which is exactly when it names a slot of the character pages. */
  function IsValidCharId(chars: seq<string>, id: int): (valid: bool)
    ensures valid <==> (0 <= id && id / PageSize < |Pages(CharRows(chars))|
                        && id % PageSize < |Pages(CharRows(chars))[id / PageSize]|)
  {
    if 0 <= id < |chars| then CharSlot(chars, id); true
    else
      if 0 <= id && id / PageSize < |Pages(CharRows(chars))| then
        PagesArePaged(CharRows(chars));
        assert id == (id / PageSize) * PageSize + id % PageSize;
        false
      else false
  }

  /** The case-insensitive name match `get_char_id_by_name` tests. */
  predicate CharMatches(chars: seq<string>, name: string, i: nat)
    requires i < |chars|
  {
    Lower(chars[i]) == Lower(name)
  }

  /** `get_char_id_by_name`: the first position whose name matches ignoring
      case; `ServerError('Character not found.')` when none does. */
  method GetCharIdByName(chars: seq<string>, name: string) returns (r: Result<nat>)
    ensures r.Ok? ==> IsValidCharId(chars, r.value) && CharMatches(chars, name, r.value)
    ensures r.Ok? ==> forall j :: 0 <= j < r.value ==> !CharMatches(chars, name, j)
    ensures r.Err? <==> forall j :: 0 <= j < |chars| ==> !CharMatches(chars, name, j)
    ensures r.Err? ==> r.message == "Character not found."
  {
    var i := 0;
    while i < |chars|
      invariant 0 <= i <= |chars|
      invariant forall j :: 0 <= j < i ==> !CharMatches(chars, name, j)
    {
      if Lower(chars[i]) == Lower(name) {
        assert CharMatches(chars, name, i);
        return Ok(i);
      }
      i := i + 1;
    }
    return Err("Character not found.");
  }

  /** What `get_song_data` reports for a match: the name and the length,
      `-1` standing for a category or a song without a length. */
  datatype Entry = Entry(name: string, length: int)

  function SongLength(s: Song): int
  {
    match s.length
    case Some(l) => l
    case None => -1
  }

  /** The entries of one category in scan order: the category, then its songs. */
  function CategoryEntries(c: Category): seq<Entry>
  {
    [Entry(c.name, -1)] + seq(|c.songs|, i requires 0 <= i < |c.songs| =>
                               Entry(c.songs[i].name, SongLength(c.songs[i])))
  }

  lemma SongEntry(c: Category, s: nat)
    requires s < |c.songs|
    ensures |CategoryEntries(c)| == 1 + |c.songs|
    ensures CategoryEntries(c)[1 + s] == Entry(c.songs[s].name, SongLength(c.songs[s]))
  {
  }

  /** Every entry `get_song_data` looks at, in the order it looks: one per
      category and one per song. */
  function Entries(cats: seq<Category>): seq<Entry>
  {
    if cats == [] then []
    else Entries(cats[..|cats| - 1]) + CategoryEntries(cats[|cats| - 1])
  }

  lemma EntriesSnoc(cats: seq<Category>, j: nat)
    requires j < |cats|
    ensures Entries(cats[..j + 1]) == Entries(cats[..j]) + CategoryEntries(cats[j])
  {
    assert cats[..j + 1][..j] == cats[..j];
  }

  lemma {:induction false} EntriesPrefix(cats: seq<Category>, j: nat)
    requires j <= |cats|
    ensures Entries(cats[..j]) <= Entries(cats)
    decreases |cats| - j
  {
    if j < |cats| {
      EntriesSnoc(cats, j);
      EntriesPrefix(cats, j + 1);
    } else {
      assert cats[..j] == cats;
    }
  }

  /** The names `get_song_data` scans are exactly the music part of the
      flat list, position by position. */
  lemma {:induction false} EntryNames(cats: seq<Category>)
    ensures |Entries(cats)| == |MusicLabels(cats)|
    ensures forall k :: 0 <= k < |Entries(cats)| ==> Entries(cats)[k].name == MusicLabels(cats)[k]
    decreases |cats|
  {
    if cats != [] {
      EntryNames(cats[..|cats| - 1]);
    }
  }

  /** `k` is the first position in `es` whose name is `name`. */
  ghost predicate FirstMatch(es: seq<Entry>, name: string, k: nat)
  {
    k < |es| && es[k].name == name && forall j :: 0 <= j < k ==> es[j].name != name
  }

  /** `get_song_data`: the earliest category or song named `music` in scan
      order, as (name, length) with `-1` for a category or a missing
      length; `ServerError('Music not found.')` when nothing matches. */
  method GetSongData(cats: seq<Category>, music: string) returns (r: Result<(string, int)>)
    ensures r.Ok? ==> exists k: nat :: FirstMatch(Entries(cats), music, k)
                                && r.value == (Entries(cats)[k].name, Entries(cats)[k].length)
    ensures r.Err? <==> forall k :: 0 <= k < |Entries(cats)| ==> Entries(cats)[k].name != music
    ensures r.Err? ==> r.message == "Music not found."
  {
    ghost var all := Entries(cats);
    var i := 0;
    while i < |cats|
      invariant 0 <= i <= |cats|
      invariant |Entries(cats[..i])| <= |all|
      invariant forall k :: 0 <= k < |Entries(cats[..i])| ==> all[k].name != music
    {
      var item := cats[i];
      ghost var base := |Entries(cats[..i])|;
      EntriesAt(cats, i);
      if item.name == music {
        assert FirstMatch(all, music, base);
        return Ok((item.name, -1));
      }
      var s := 0;
      while s < |item.songs|
        invariant 0 <= s <= |item.songs|
        invariant forall k :: 0 <= k < base + 1 + s ==> all[k].name != music
      {
        var song := item.songs[s];
        EntriesSongAt(cats, i, s);
        if song.name == music {
          assert FirstMatch(all, music, base + 1 + s);
          return Ok((song.name, SongLength(song)));
        }
        s := s + 1;
      }
      i := i + 1;
    }
    assert cats[..i] == cats;
    return Err("Music not found.");
  }

  /** Where category `i` sits in the whole scan order, and how many
      entries it and the categories before it take. */
  lemma EntriesAt(cats: seq<Category>, i: nat)
    requires i < |cats|
    ensures var base, all := |Entries(cats[..i])|, Entries(cats);
      && base + 1 + |cats[i].songs| == |Entries(cats[..i + 1])| <= |all|
      && all[base] == Entry(cats[i].name, -1)
  {
    EntriesSnoc(cats, i);
    EntriesPrefix(cats, i + 1);
    var base, pre, all := |Entries(cats[..i])|, Entries(cats[..i + 1]), Entries(cats);
    var block := CategoryEntries(cats[i]);
    assert |block| == 1 + |cats[i].songs|;
    assert pre == Entries(cats[..i]) + block;
    assert block[0] == Entry(cats[i].name, -1);
    assert all[base] == pre[base] == block[0];
  }

  /** Song `s` of category `i` comes `s + 1` entries after the category. */
  lemma EntriesSongAt(cats: seq<Category>, i: nat, s: nat)
    requires i < |cats| && s < |cats[i].songs|
    ensures var base, all := |Entries(cats[..i])|, Entries(cats);
      && base + 1 + s < |all|
      && all[base + 1 + s] == Entry(cats[i].songs[s].name, SongLength(cats[i].songs[s]))
  {
    EntriesSnoc(cats, i);
    EntriesPrefix(cats, i + 1);
    var base, pre, all := |Entries(cats[..i])|, Entries(cats[..i + 1]), Entries(cats);
    var block := CategoryEntries(cats[i]);
    SongEntry(cats[i], s);
    assert all[base + 1 + s] == pre[base + 1 + s] == block[1 + s];
  }

  /** The worked catalog: two areas and one category with a timed and an
      untimed song. */
  lemma SmallCatalog()
    ensures var cats := [Category("Theme", [Song("Main", Some(120)), Song("Cross", None)])];
      && Labels(["Courtroom", "Lobby"], cats) == ["Courtroom", "Lobby", "Theme", "Main", "Cross"]
      && FirstMatch(Entries(cats), "Cross", 2) && Entries(cats)[2] == Entry("Cross", -1)
      && FirstMatch(Entries(cats), "Theme", 0) && Entries(cats)[0] == Entry("Theme", -1)
      && FirstMatch(Entries(cats), "Main", 1) && Entries(cats)[1] == Entry("Main", 120)
  {
    var cats := [Category("Theme", [Song("Main", Some(120)), Song("Cross", None)])];
    assert cats[..0] == [];
    assert MusicLabels(cats) == ["Theme", "Main", "Cross"];
    assert Entries(cats) == [Entry("Theme", -1), Entry("Main", 120), Entry("Cross", -1)];
  }

  /** Twelve characters take two pages, of ten and two rows. */
  lemma TwelveCharacters(chars: seq<string>)
    requires |chars| == 12
    ensures |Pages(CharRows(chars))| == 2
    ensures |Pages(CharRows(chars))[0]| == 10 && |Pages(CharRows(chars))[1]| == 2
  {
  }

  /** The song lookups on the worked catalog, through the method. */
  method SmallCatalogLookups()
  {
    var cats := [Category("Theme", [Song("Main", Some(120)), Song("Cross", None)])];
    SmallCatalog();
    var cross := GetSongData(cats, "Cross");
    assert cross == Ok(("Cross", -1));
    var main := GetSongData(cats, "Main");
    assert main == Ok(("Main", 120));
    var missing := GetSongData(cats, "Lobby");
    assert Entries(cats)[0].name != "Lobby";
    assert missing == Err("Music not found.");
  }

  /** A character lookup ignores case. */
  method CaseBlindLookup()
  {
    var chars := ["Edgeworth", "Phoenix"];
    var phoenix := GetCharIdByName(chars, "PHOENIX");
    assert !CharMatches(chars, "PHOENIX", 0);
    assert Lower("Phoenix") == Lower("PHOENIX");
    assert CharMatches(chars, "PHOENIX", 1);
    assert phoenix == Ok(1);
  }
}
