/**
 The response cache of src/cache/cache.c over a modelled directory.  The directory
 implements a map from 64-bit hashes to entries with an expiry time, at every moment,
 also between the system calls of an insert.
 */
module Cache {
  import opened StringUtil
  import opened CacheFormat

  type Files = map<string, string>

  datatype Entry = Entry(hdr: EntryHeader, data: string)

  type Entries = map<nat, Entry>

  datatype Found = Miss | NoMemory | Hit(entry: Entry)

  // ----- the map a directory stands for -----

  predicate EntryOk(e: Entry) {
    Storable(e.hdr) && |e.data| == e.hdr.headersLen + e.hdr.bodyLen
  }

  function Stored(e: Entry): string
    requires EntryOk(e)
  {
    Encode(e.hdr) + e.data
  }

  /** The file of hash `h` holds exactly the entry of the map, if there is one. */
  predicate Holds(root: string, files: Files, m: Entries, h: nat) {
    && (Path(root, h) in files <==> h in m)
    && (h in m ==> EntryOk(m[h]) && files[Path(root, h)] == Stored(m[h]))
  }

  ghost predicate Represents(root: string, files: Files, m: Entries) {
    && (forall h | h in m :: h < WORD)
    && (forall h: nat | h < WORD :: Holds(root, files, m, h))
  }

  predicate Expired(e: EntryHeader, now: int) {
    e.expire > 0 && now > e.expire
  }

  function MapLookup(m: Entries, h: nat, now: int, memory: bool): (Found, Entries) {
    if h !in m then (Miss, m)
    else if Expired(m[h].hdr, now) then (Miss, m - {h})
    else if !memory then (NoMemory, m)
    else (Hit(m[h]), m)
  }

  /** Only the file of `h` may change, and it must be right. */
  lemma RepresentsUpdate(root: string, files: Files, m: Entries, h: nat, files': Files, m': Entries)
    requires Represents(root, files, m) && h < WORD && Holds(root, files', m', h)
    requires m' - {h} == m - {h}
    requires forall g: nat | g < WORD && g != h ::
               (Path(root, g) in files' <==> Path(root, g) in files)
               && (Path(root, g) in files ==> files'[Path(root, g)] == files[Path(root, g)])
    ensures Represents(root, files', m')
  {
    hide Path, Stored, EntryOk;
    forall g: nat | g < WORD ensures Holds(root, files', m', g) {
      if g != h {
        assert Holds(root, files, m, g);
        assert g in m <==> g in m - {h};
        assert g in m' <==> g in m' - {h};
        assert g in m ==> m[g] == (m - {h})[g] == (m' - {h})[g] == m'[g];
      }
    }
    forall g | g in m' ensures g < WORD {
      if g != h { assert g in m' - {h}; }
    }
  }

  /** Work on a temporary file is invisible. */
  lemma TmpInvisible(root: string, files: Files, m: Entries, h: nat, files': Files)
    requires Represents(root, files, m) && h < WORD
    requires files' - {TmpPath(root, h)} == files - {TmpPath(root, h)}
    ensures Represents(root, files', m)
  {
    hide Path, TmpPath, Stored, EntryOk;
    var t := TmpPath(root, h);
    forall g: nat | g < WORD ensures Holds(root, files', m, g) {
      PathsApart(root, h, g);
      var p := Path(root, g);
      assert Holds(root, files, m, g);
      assert p in files <==> p in files - {t};
      assert p in files' <==> p in files' - {t};
      assert p in files ==> files[p] == (files - {t})[p] == (files' - {t})[p] == files'[p];
    }
  }

  // ----- reading a file -----

  /** `cache_lookup` on the file at `p`. */
  function FileLookup(files: Files, p: string, now: int, memory: bool): (Found, Files) {
    if p !in files then (Miss, files)
    else
      var f := files[p];
      if |f| < HEADER_SIZE then (Miss, files)
      else
        var hdr := Decode(f[..HEADER_SIZE]);
        if Expired(hdr, now) then (Miss, files - {p})
        else if !memory then (NoMemory, files)
        else
          var total := (hdr.headersLen + hdr.bodyLen) % WORD;
          if |f| - HEADER_SIZE < total then (Miss, files)
          else (Hit(Entry(hdr, f[HEADER_SIZE..HEADER_SIZE + total])), files)
  }

  lemma StoredReadsBack(e: Entry)
    requires EntryOk(e)
    ensures var f := Stored(e);
            && |f| == HEADER_SIZE + |e.data| && Decode(f[..HEADER_SIZE]) == e.hdr && f[HEADER_SIZE..] == e.data
            && (e.hdr.headersLen + e.hdr.bodyLen) % WORD == |e.data|
  {
    hide Encode, Decode;
    var f := Stored(e);
    assert f[..HEADER_SIZE] == Encode(e.hdr);
    HeaderRoundTrip(e.hdr);
    WordIsPow256();
  }

  lemma WordIsPow256()
    ensures Pow256(8) == WORD
  {
    assert Pow256(4) == 0x1_0000_0000;
  }

  /** A lookup in the directory is a lookup in the map. */
  lemma LookupRefines(root: string, files: Files, m: Entries, h: nat, now: int, memory: bool)
    requires Represents(root, files, m) && h < WORD
    ensures var (r, files') := FileLookup(files, Path(root, h), now, memory);
            var (s, m') := MapLookup(m, h, now, memory);
            r == s && Represents(root, files', m')
  {
    hide Path, Stored, EntryOk, Decode;
    assert Holds(root, files, m, h);
    if h in m {
      StoredReadsBack(m[h]);
      if Expired(m[h].hdr, now) {
        UnlinkRefines(root, files, m, h);
      }
    }
  }

  lemma PresentIff(root: string, files: Files, m: Entries, h: nat)
    requires Represents(root, files, m) && h < WORD
    ensures Path(root, h) in files <==> h in m
  {
    hide Path;
    assert Holds(root, files, m, h);
  }

  lemma UnlinkRefines(root: string, files: Files, m: Entries, h: nat)
    requires Represents(root, files, m) && h < WORD
    ensures Represents(root, files - {Path(root, h)}, m - {h})
  {
    hide Path, Stored, EntryOk;
    var p := Path(root, h);
    forall g: nat | g < WORD && g != h
      ensures (Path(root, g) in files - {p} <==> Path(root, g) in files)
              && (Path(root, g) in files ==> (files - {p})[Path(root, g)] == files[Path(root, g)])
    {
      PathsApart(root, g, h);
    }
    RepresentsUpdate(root, files, m, h, files - {p}, m - {h});
  }

  /** Renaming a complete temporary file over the cache file installs its entry. */
  lemma RenameRefines(root: string, files: Files, m: Entries, h: nat, e: Entry)
    requires Represents(root, files, m) && h < WORD && EntryOk(e)
    ensures Represents(root, files[Path(root, h) := Stored(e)] - {TmpPath(root, h)}, m[h := e])
  {
    hide Path, TmpPath, Stored, EntryOk;
    var p, t := Path(root, h), TmpPath(root, h);
    var files' := files[p := Stored(e)] - {t};
    PathsApart(root, h, h);
    forall g: nat | g < WORD && g != h
      ensures (Path(root, g) in files' <==> Path(root, g) in files)
              && (Path(root, g) in files ==> files'[Path(root, g)] == files[Path(root, g)])
    {
      PathsApart(root, g, h);
      PathsApart(root, h, g);
    }
    assert m[h := e] - {h} == m - {h};
    RepresentsUpdate(root, files, m, h, files', m[h := e]);
  }

  // ----- the directory, one system call at a time -----

  /** A directory, and what it was after each system call so far. */
  class Disk {
    var files: Files
    ghost var history: seq<Files>

    constructor ()
      ensures files == map[] && history == []
    {
      files, history := map[], [];
    }

    /** `open` for writing, creating or truncating the file. */
    method Create(p: string, can: bool)
      modifies this
      ensures files == (if can then old(files)[p := ""] else old(files)) && history == old(history) + [files]
    {
      if can { files := files[p := ""]; }
      history := history + [files];
    }

    /** `write` to an open file, which may take only part of `b`. */
    method Append(p: string, b: string, n: nat) returns (taken: nat)
      requires p in files
      modifies this
      ensures files == old(files)[p := old(files)[p] + Clip(b, n)] && taken == |Clip(b, n)|
      ensures history == old(history) + [files]
    {
      files := files[p := files[p] + Clip(b, n)];
      history := history + [files];
      taken := |Clip(b, n)|;
    }

    method Rename(from: string, to: string, can: bool)
      requires from in files && from != to
      modifies this
      ensures files == if can then old(files)[to := old(files)[from]] - {from} else old(files)
      ensures history == old(history) + [files]
    {
      if can { files := files[to := files[from]] - {from}; }
      history := history + [files];
    }

    method Unlink(p: string) returns (ok: bool)
      modifies this
      ensures (ok <==> p in old(files)) && files == old(files) - {p} && history == old(history) + [files]
    {
      ok := p in files;
      files := files - {p};
      history := history + [files];
    }
  }

  // ----- the directories an insert passes through -----

  /** What the system calls of one insert do: whether `open` and `rename` succeed, how much each `write` takes. */
  datatype Fate = Fate(openOk: bool, wroteHeader: nat, wroteHeaders: nat, wroteBody: nat, renameOk: bool)

  /** A `write`: what it is given and how much of it is taken at most. */
  datatype Piece = Piece(text: string, takes: nat)

  function ExpireTime(ttl: int, now: int): int {
    if ttl > 0 then now + ttl else 0
  }

  function NewEntry(status: int, headers: string, body: string, ttl: int, now: int): Entry {
    Entry(EntryHeader(status, |headers|, |body|, ExpireTime(ttl, now)), headers + body)
  }

  /** The insert goes through: every call succeeds and takes all it was given. */
  predicate Succeeds(f: Fate, headers: string, body: string) {
    f.openOk && WritesAll(f, headers, body) && f.renameOk
  }

  predicate WritesAll(f: Fate, headers: string, body: string) {
    f.wroteHeader >= HEADER_SIZE && f.wroteHeaders >= |headers| && f.wroteBody >= |body|
  }

  /** A part that is written only if there is something to write. */
  function Optional(text: string, takes: nat): seq<Piece> {
    if text == "" then [] else [Piece(text, takes)]
  }

  function Pieces(hdr: EntryHeader, headers: string, body: string, f: Fate): seq<Piece>
    requires Storable(hdr)
  {
    [Piece(Encode(hdr), f.wroteHeader)] + Optional(headers, f.wroteHeaders) + Optional(body, f.wroteBody)
  }

  /** The directories after each write to `t`, up to the first that falls short. */
  function Written(files: Files, t: string, ps: seq<Piece>): (r: seq<Files>)
    requires t in files
    ensures forall d | d in r :: t in d && d - {t} == files - {t}
    decreases |ps|
  {
    if ps == [] then []
    else
      var d := files[t := files[t] + Clip(ps[0].text, ps[0].takes)];
      assert d - {t} == files - {t};
      [d] + if ps[0].takes < |ps[0].text| then [] else Written(d, t, ps[1..])
  }

  /** The directories before the file is renamed or unlinked: truncated first, then written to. */
  function Filling(files: Files, t: string, ps: seq<Piece>): (r: seq<Files>)
    ensures r != [] && forall d | d in r :: t in d && d - {t} == files - {t}
  {
    var d := files[t := ""];
    assert d - {t} == files - {t};
    [d] + Written(d, t, ps)
  }

  function Last(ds: seq<Files>): Files
    requires ds != []
  {
    ds[|ds| - 1]
  }

  /** How an insert ends: the full file renamed, or the temporary file unlinked. */
  function Ending(d: Files, p: string, t: string, done: bool, renameOk: bool): (r: seq<Files>)
    requires t in d
    ensures r != []
  {
    if !done then [d - {t}] else if !renameOk then [d, d - {t}] else [d[p := d[t]] - {t}]
  }

  /** The directory after each system call of an insert of `e` under hash `h`. */
  function InsertSteps(root: string, files: Files, h: nat, e: Entry, headers: string, body: string, f: Fate)
    : (r: seq<Files>)
    requires Storable(e.hdr)
    ensures r != []
  {
    var p, t := Path(root, h), TmpPath(root, h);
    if !f.openOk then [files]
    else
      var ds := Filling(files, t, Pieces(e.hdr, headers, body, f));
      ds + Ending(Last(ds), p, t, WritesAll(f, headers, body), f.renameOk)
  }

  lemma WrittenFirst(files: Files, t: string, p: Piece, ps: seq<Piece>)
    requires t in files
    ensures var d := files[t := files[t] + Clip(p.text, p.takes)];
            Written(files, t, [p] + ps) == [d] + if p.takes < |p.text| then [] else Written(d, t, ps)
  {
    assert ([p] + ps)[1..] == ps;
  }

  lemma WrittenNone(files: Files, t: string)
    requires t in files
    ensures Written(files, t, []) == []
  {
  }

  lemma FirstPiece(text: string, takes: nat)
    requires text != ""
    ensures Optional(text, takes) == [Piece(text, takes)]
  {
  }

  /** A write and what comes after it. */
  lemma WrittenConcat(files: Files, t: string, text: string, takes: nat, ps: seq<Piece>)
    requires t in files
    ensures var a := Written(files, t, Optional(text, takes));
            var d := Last([files] + a);
            && t in d
            && Written(files, t, Optional(text, takes) + ps) == a + (if takes < |text| then [] else Written(d, t, ps))
            && (takes < |text| ==> Last([files] + a) == Last([files] + Written(files, t, Optional(text, takes) + ps)))
            && (takes >= |text| ==>
                  Last([files] + Written(files, t, Optional(text, takes) + ps)) == Last([d] + Written(d, t, ps)))
  {
    hide Written, Clip;
    WrittenNone(files, t);
    if text == "" {
      assert [] + ps == ps;
    } else {
      var p := Piece(text, takes);
      var d := files[t := files[t] + Clip(text, takes)];
      assert Optional(text, takes) == [p] + [];
      WrittenFirst(files, t, p, []);
      WrittenNone(d, t);
      assert Optional(text, takes) + ps == [p] + ps;
      WrittenFirst(files, t, p, ps);
    }
  }

  lemma LastCons(d: Files, ds: seq<Files>)
    ensures Last([d] + ds) == if ds == [] then d else Last(ds)
  {
  }

  /** When nothing falls short the file has everything in the end. */
  lemma {:induction false} WrittenAll(files: Files, t: string, ps: seq<Piece>)
    requires t in files && forall p | p in ps :: p.takes >= |p.text|
    ensures t in Last([files] + Written(files, t, ps))
    ensures Last([files] + Written(files, t, ps))[t] == files[t] + Texts(ps)
    decreases |ps|
  {
    hide Last;
    LastCons(files, Written(files, t, ps));
    if ps != [] {
      var p, d := ps[0], files[t := files[t] + ps[0].text];
      assert p in ps;
      WrittenAll(d, t, ps[1..]);
      assert Written(files, t, ps) == [d] + Written(d, t, ps[1..]);
      Rejoin(files[t], p.text, Texts(ps[1..]));
    }
  }

  function Texts(ps: seq<Piece>): string {
    if ps == [] then "" else ps[0].text + Texts(ps[1..])
  }

  lemma PiecesTexts(hdr: EntryHeader, headers: string, body: string, f: Fate)
    requires Storable(hdr)
    ensures Texts(Pieces(hdr, headers, body, f)) == Encode(hdr) + headers + body
  {
    hide Encode;
    var first := Piece(Encode(hdr), f.wroteHeader);
    var second, third := Optional(headers, f.wroteHeaders), Optional(body, f.wroteBody);
    assert Pieces(hdr, headers, body, f) == [first] + (second + third);
    assert ([first] + (second + third))[1..] == second + third;
    assert Texts(third) == body;
    assert Texts(second + third) == headers + body by {
      if headers == "" { assert second + third == third; } else { assert (second + third)[1..] == third; }
    }
    assert Encode(hdr) + (headers + body) == Encode(hdr) + headers + body;
  }

  lemma PiecesTaken(hdr: EntryHeader, headers: string, body: string, f: Fate)
    requires Storable(hdr) && WritesAll(f, headers, body)
    ensures forall p | p in Pieces(hdr, headers, body, f) :: p.takes >= |p.text|
  {
    hide Encode;
    assert |Encode(hdr)| == HEADER_SIZE;
  }

  /** Once everything is written the temporary file is the entry. */
  lemma FilledIsStored(files: Files, t: string, e: Entry, headers: string, body: string, f: Fate)
    requires EntryOk(e) && e.data == headers + body && WritesAll(f, headers, body)
    ensures Last(Filling(files, t, Pieces(e.hdr, headers, body, f)))[t] == Stored(e)
  {
    hide Written, Pieces, WritesAll, Texts, Encode, Storable, Last;
    var ps, d := Pieces(e.hdr, headers, body, f), files[t := ""];
    PiecesTaken(e.hdr, headers, body, f);
    WrittenAll(d, t, ps);
    PiecesTexts(e.hdr, headers, body, f);
    assert "" + Texts(ps) == Texts(ps);
    assert Encode(e.hdr) + (headers + body) == Encode(e.hdr) + headers + body;
  }

  /**
   Whatever the system calls do, every directory an insert passes through stands for the
   map before it, except the last one of a successful insert, which stands for the map
   with the new entry.
   */
  lemma InsertAtomic(root: string, files: Files, m: Entries, h: nat, e: Entry, headers: string, body: string, f: Fate)
    requires Represents(root, files, m) && h < WORD && EntryOk(e) && e.data == headers + body
    ensures var ds := InsertSteps(root, files, h, e, headers, body, f);
            && (forall i | 0 <= i < |ds| - 1 :: Represents(root, ds[i], m))
            && Represents(root, Last(ds), if Succeeds(f, headers, body) then m[h := e] else m)
  {
    hide Represents, Path, TmpPath, EntryOk, Stored, Pieces, Filling, WritesAll;
    IsStorable(e);
    if f.openOk {
      var t, ps := TmpPath(root, h), Pieces(e.hdr, headers, body, f);
      var ds := Filling(files, t, ps);
      forall d | d in ds ensures Represents(root, d, m) && Represents(root, d - {t}, m) {
        TmpInvisible(root, files, m, h, d);
        assert (d - {t}) - {t} == files - {t};
        TmpInvisible(root, files, m, h, d - {t});
      }
      assert Last(ds) in ds;
      if WritesAll(f, headers, body) {
        FilledIsStored(files, t, e, headers, body, f);
        RenameRefines(root, Last(ds), m, h, e);
      }
    }
  }

  /** A reader at any moment of an insert, of any key, finds what the old or the new map holds; never half an entry. */
  lemma ReaderDuringInsert(root: string, files: Files, m: Entries, h: nat, e: Entry, headers: string, body: string,
                           f: Fate, i: nat, g: nat, now: int, memory: bool)
    requires Represents(root, files, m) && h < WORD && EntryOk(e) && e.data == headers + body && g < WORD
    requires Storable(e.hdr) && i < |InsertSteps(root, files, h, e, headers, body, f)|
    ensures var ds := InsertSteps(root, files, h, e, headers, body, f);
            var seen := if i == |ds| - 1 && Succeeds(f, headers, body) then m[h := e] else m;
            FileLookup(ds[i], Path(root, g), now, memory).0 == MapLookup(seen, g, now, memory).0
  {
    hide Represents, InsertSteps, FileLookup, MapLookup, EntryOk, Path;
    InsertAtomic(root, files, m, h, e, headers, body, f);
    var ds := InsertSteps(root, files, h, e, headers, body, f);
    LookupRefines(root, ds[i], if i == |ds| - 1 && Succeeds(f, headers, body) then m[h := e] else m, g, now, memory);
  }

  // ----- the store -----

  class Store {
    const root: string
    const disk: Disk
    ghost var entries: Entries

    ghost predicate Valid()
      reads this, disk
    {
      Represents(root, disk.files, entries)
    }

    /** An empty cache directory. */
    constructor (root: string)
      ensures Valid() && fresh(disk) && this.root == root && entries == map[] && disk.history == []
    {
      this.root := root;
      disk := new Disk();
      entries := map[];
    }

    /** `cache_path`. */
    method CachePath(key: string) returns (p: string)
      ensures p == Path(root, Hash(key))
    {
      var h := Fnv1a(key);
      p := Path(root, h as nat);
    }

    /** `cache_lookup`; `memory` tells whether `malloc` succeeds. */
    method Lookup(key: string, now: int, memory: bool) returns (r: Found)
      requires Valid()
      modifies this, disk
      ensures Valid() && (r, entries) == MapLookup(old(entries), Hash(key), now, memory)
    {
      hide Path, Decode, Represents;
      var p := CachePath(key);
      LookupRefines(root, disk.files, entries, Hash(key), now, memory);
      entries := MapLookup(entries, Hash(key), now, memory).1;
      if p !in disk.files { return Miss; }
      var f := disk.files[p];
      if |f| < HEADER_SIZE { return Miss; }
      var hdr := Decode(f[..HEADER_SIZE]);
      if Expired(hdr, now) {
        var ok := disk.Unlink(p);
        return Miss;
      }
      if !memory { return NoMemory; }
      var total := (hdr.headersLen + hdr.bodyLen) % WORD;
      if |f| - HEADER_SIZE < total { return Miss; }
      return Hit(Entry(hdr, f[HEADER_SIZE..HEADER_SIZE + total]));
    }

    /** A `write` that is left out when there is nothing to write. */
    method WriteSome(t: string, text: string, takes: nat) returns (ok: bool)
      requires t in disk.files
      modifies disk
      ensures t in disk.files && (ok <==> takes >= |text|)
      ensures var ds := Written(old(disk.files), t, Optional(text, takes));
              disk.history == old(disk.history) + ds && disk.files == Last([old(disk.files)] + ds)
    {
      hide Written;
      WrittenNone(disk.files, t);
      if |text| > 0 {
        assert Optional(text, takes) == [Piece(text, takes)] + [];
        WrittenFirst(disk.files, t, Piece(text, takes), []);
        var n := disk.Append(t, text, takes);
        WrittenNone(disk.files, t);
        return n == |text|;
      }
      return true;
    }

    /** The three writes of an insert, stopping at the first that falls short. */
    method FillTmp(t: string, hdr: EntryHeader, headers: string, body: string, fate: Fate) returns (done: bool)
      requires t in disk.files && Storable(hdr)
      modifies disk
      ensures var ds := Written(old(disk.files), t, Pieces(hdr, headers, body, fate));
              disk.history == old(disk.history) + ds && disk.files == Last([old(disk.files)] + ds)
      ensures done <==> WritesAll(fate, headers, body)
    {
      hide Written, Storable, Encode, Optional, Last, Clip;
      var head := Encode(hdr);
      ghost var first, more, rest := Optional(head, fate.wroteHeader), Optional(headers, fate.wroteHeaders),
        Optional(body, fate.wroteBody);
      FirstPiece(head, fate.wroteHeader);
      ghost var d0 := disk.files;
      assert Pieces(hdr, headers, body, fate) == first + (more + rest);
      WrittenConcat(d0, t, head, fate.wroteHeader, more + rest);
      done := WriteSome(t, head, fate.wroteHeader);
      if !done { return; }
      WrittenConcat(disk.files, t, headers, fate.wroteHeaders, rest);
      done := WriteSome(t, headers, fate.wroteHeaders);
      if !done { return; }
      done := WriteSome(t, body, fate.wroteBody);
    }

    /** The end of an insert: rename what was filled, and unlink the temporary file when anything failed. */
    method Settle(p: string, t: string, done: bool, renameOk: bool) returns (ok: bool)
      requires t in disk.files && p != t
      modifies disk
      ensures var ds := Ending(old(disk.files), p, t, done, renameOk);
              disk.history == old(disk.history) + ds && disk.files == Last(ds)
      ensures ok <==> done && renameOk
    {
      var unlinked;
      if !done {
        unlinked := disk.Unlink(t);
        return false;
      }
      disk.Rename(t, p, renameOk);
      if !renameOk {
        unlinked := disk.Unlink(t);
        return false;
      }
      return true;
    }

    /** The system calls of an insert of `e`, one after the other. */
    method Perform(ghost h: nat, p: string, e: Entry, headers: string, body: string, fate: Fate) returns (ok: bool)
      requires Storable(e.hdr) && p == Path(root, h)
      modifies disk
      ensures var ds := InsertSteps(root, old(disk.files), h, e, headers, body, fate);
              disk.history == old(disk.history) + ds && disk.files == Last(ds)
      ensures ok <==> Succeeds(fate, headers, body)
    {
      hide TmpPath, Path, Encode, Storable, Written, Pieces, WritesAll, Ending;
      var t := p + ".tmp";
      TmpIs(root, h);
      disk.Create(t, fate.openOk);
      if !fate.openOk { return false; }
      var done := FillTmp(t, e.hdr, headers, body, fate);
      ok := Settle(p, t, done, fate.renameOk);
    }

    /**
     `cache_insert`.  The system calls take the directory through exactly `InsertSteps`, of
     which only the last of a successful insert does not stand for the old map.
     */
    method Insert(key: string, status: int, headers: string, body: string, ttl: int, now: int, fate: Fate)
      returns (ok: bool)
      requires Valid() && EntryOk(NewEntry(status, headers, body, ttl, now))
      modifies this, disk
      ensures Valid() && (ok <==> Succeeds(fate, headers, body))
      ensures entries ==
              if ok then old(entries)[Hash(key) := NewEntry(status, headers, body, ttl, now)] else old(entries)
      ensures var ds := InsertSteps(root, old(disk.files), Hash(key), NewEntry(status, headers, body, ttl, now),
                                    headers, body, fate);
              disk.history == old(disk.history) + ds && disk.files == Last(ds)
    {
      hide Represents, EntryOk, Storable, InsertSteps, Succeeds, Path;
      var p := CachePath(key);
      var e := NewEntry(status, headers, body, ttl, now);
      IsStorable(e);
      InsertAtomic(root, disk.files, entries, Hash(key), e, headers, body, fate);
      ok := Perform(Hash(key), p, e, headers, body, fate);
      if ok { entries := entries[Hash(key) := e]; }
    }

    /** `cache_remove`. */
    method Remove(key: string) returns (ok: bool)
      requires Valid()
      modifies this, disk
      ensures Valid() && entries == old(entries) - {Hash(key)} && (ok <==> Hash(key) in old(entries))
    {
      hide Path, Represents;
      var p := CachePath(key);
      PresentIff(root, disk.files, entries, Hash(key));
      UnlinkRefines(root, disk.files, entries, Hash(key));
      ok := disk.Unlink(p);
      entries := entries - {Hash(key)};
    }
  }

  lemma TmpIs(root: string, h: nat)
    ensures TmpPath(root, h) == Path(root, h) + ".tmp" != Path(root, h)
  {
  }

  lemma IsStorable(e: Entry)
    requires EntryOk(e)
    ensures Storable(e.hdr)
  {
  }
}
