/** The chunk store on disk: paths derived from a hash of the object, and atomic replacement by rename. */
module Storage {
  import opened Basics
  import opened ChunkKey
  import opened CacheModel
  import opened Journal
  import Decimal
  import Text

  type FileSystem = map<string, seq<byte>>

  predicate IsHex(c: char) {
    '0' <= c <= '9' || 'a' <= c <= 'f'
  }

  /** What is assumed of the hex-encoded digest: hex digits, at least four, and no collisions. */
  ghost predicate IdealHash(hash: string -> string) {
    && (forall key :: |hash(key)| >= 4)
    && (forall key, c :: c in hash(key) ==> IsHex(c))
    && (forall a, b :: hash(a) == hash(b) ==> a == b)
  }

  function Directory(root: string, digest: string): string
    requires |digest| >= 4
  {
    root + "/data/" + digest[0..2] + "/" + digest[2..4]
  }

  function FileName(digest: string, idx: u64): string {
    digest + ['_'] + Decimal.Print(idx)
  }

  /** `chunk_path`. */
  function ChunkPath(root: string, hash: string -> string, id: ChunkId): string
    requires |hash(id.key)| >= 4
  {
    Directory(root, hash(id.key)) + ['/'] + FileName(hash(id.key), id.idx)
  }

  /** `Path::with_extension`: replaces what follows the last dot of the file name, or appends. */
  function WithExtension(path: string, ext: string): string {
    var dir := match Text.RFind(path, '/') case None => 0 case Some(slash) => slash + 1;
    match Text.RFind(path[dir..], '.')
    case None => path + ['.'] + ext
    case Some(dot) => if dot == 0 then path + ['.'] + ext else path[..dir + dot] + ['.'] + ext
  }

  lemma FileNameShape(digest: string, idx: u64)
    requires forall c :: c in digest ==> IsHex(c)
    ensures '/' !in FileName(digest, idx) && '.' !in FileName(digest, idx)
    ensures Decimal.IsDigit(FileName(digest, idx)[|FileName(digest, idx)| - 1])
  {
    var digits := Decimal.Print(idx);
    assert digits[|digits| - 1] in digits;
  }

  lemma FileNameInjective(a: string, i: u64, b: string, j: u64)
    requires forall c :: c in a || c in b ==> IsHex(c)
    requires FileName(a, i) == FileName(b, j)
    ensures a == b && i == j
  {
    Text.SplitHead(a, '_', Decimal.Print(i));
    Text.SplitHead(b, '_', Decimal.Print(j));
    assert [a, Decimal.Print(i)] == [b, Decimal.Print(j)];
    assert [a, Decimal.Print(i)][1] == [b, Decimal.Print(j)][1];
    Decimal.ParsePrint(i);
    Decimal.ParsePrint(j);
  }

  /** The last path component. */
  lemma LastComponent(dir: string, name: string)
    requires '/' !in name
    ensures Text.RFind(dir + ['/'] + name, '/') == Some(|dir|)
    ensures (dir + ['/'] + name)[|dir| + 1..] == name
  {
    Text.RFindAppend(dir, '/', name);
  }

  /** Distinct chunks have distinct files. */
  lemma ChunkPathInjective(root: string, hash: string -> string, a: ChunkId, b: ChunkId)
    requires IdealHash(hash)
    ensures ChunkPath(root, hash, a) == ChunkPath(root, hash, b) <==> a == b
  {
    if ChunkPath(root, hash, a) == ChunkPath(root, hash, b) {
      var da, db := hash(a.key), hash(b.key);
      FileNameShape(da, a.idx);
      FileNameShape(db, b.idx);
      LastComponent(Directory(root, da), FileName(da, a.idx));
      LastComponent(Directory(root, db), FileName(db, b.idx));
      FileNameInjective(da, a.idx, db, b.idx);
    }
  }

  /** A file name without a dot gets the extension appended. */
  lemma ExtensionAppended(dir: string, name: string, ext: string)
    requires '/' !in name && '.' !in name
    ensures WithExtension(dir + ['/'] + name, ext) == dir + ['/'] + name + ['.'] + ext
  {
    LastComponent(dir, name);
    Text.LastBeforeAbsent(name, '.', |name|);
  }

  /** The temporary file of a chunk, and why it is no chunk's file. */
  lemma TempPath(root: string, hash: string -> string, id: ChunkId)
    requires IdealHash(hash)
    ensures WithExtension(ChunkPath(root, hash, id), "tmp") == ChunkPath(root, hash, id) + ['.'] + "tmp"
    ensures forall other: ChunkId ::
              ChunkPath(root, hash, other) != WithExtension(ChunkPath(root, hash, id), "tmp")
  {
    var digest := hash(id.key);
    FileNameShape(digest, id.idx);
    ExtensionAppended(Directory(root, digest), FileName(digest, id.idx), "tmp");
    forall other: ChunkId
      ensures ChunkPath(root, hash, other) != ChunkPath(root, hash, id) + ['.'] + "tmp"
    {
      EndsInDigit(root, hash, other);
      NotADigit(ChunkPath(root, hash, id));
    }
  }

  lemma NotADigit(path: string)
    ensures var temp := path + ['.'] + "tmp";
            !Decimal.IsDigit(temp[|temp| - 1])
  {
  }

  lemma EndsInDigit(root: string, hash: string -> string, id: ChunkId)
    requires IdealHash(hash)
    ensures var path := ChunkPath(root, hash, id);
            path != [] && Decimal.IsDigit(path[|path| - 1])
  {
    FileNameShape(hash(id.key), id.idx);
    var path, name := ChunkPath(root, hash, id), FileName(hash(id.key), id.idx);
    assert path[|path| - 1] == name[|name| - 1];
  }

  /** The file system shows exactly these chunk files; other files do not matter. */
  ghost predicate Shows(root: string, hash: string -> string, fs: FileSystem, files: map<ChunkId, seq<byte>>)
    requires IdealHash(hash)
  {
    forall id: ChunkId {:trigger ChunkPath(root, hash, id)} ::
      && (id in files <==> ChunkPath(root, hash, id) in fs)
      && (id in files ==> files[id] == fs[ChunkPath(root, hash, id)])
  }

  lemma ShowsTemp(root: string, hash: string -> string, fs: FileSystem, files: map<ChunkId, seq<byte>>, id: ChunkId,
                  data: seq<byte>)
    requires IdealHash(hash) && Shows(root, hash, fs, files)
    ensures Shows(root, hash, fs[WithExtension(ChunkPath(root, hash, id), "tmp") := data], files)
  {
    TempPath(root, hash, id);
  }

  lemma ShowsPut(root: string, hash: string -> string, fs: FileSystem, files: map<ChunkId, seq<byte>>, id: ChunkId,
                 data: seq<byte>)
    requires IdealHash(hash) && Shows(root, hash, fs, files)
    ensures Shows(root, hash, fs[ChunkPath(root, hash, id) := data], files[id := data])
  {
    forall other: ChunkId
      ensures ChunkPath(root, hash, other) == ChunkPath(root, hash, id) <==> other == id
    {
      ChunkPathInjective(root, hash, other, id);
    }
  }

  lemma ShowsDelete(root: string, hash: string -> string, fs: FileSystem, files: map<ChunkId, seq<byte>>, id: ChunkId)
    requires IdealHash(hash) && Shows(root, hash, fs, files)
    ensures Shows(root, hash, fs - {ChunkPath(root, hash, id)}, files - {id})
  {
    forall other: ChunkId
      ensures ChunkPath(root, hash, other) == ChunkPath(root, hash, id) <==> other == id
    {
      ChunkPathInjective(root, hash, other, id);
    }
  }

  /** One more file system that shows the old chunk files. */
  ghost function SeenMore(root: string, hash: string -> string, seen: seq<FileSystem>, before: map<ChunkId, seq<byte>>,
                          fs: FileSystem): (more: seq<FileSystem>)
    requires IdealHash(hash) && Shows(root, hash, fs, before)
    requires forall i :: 0 <= i < |seen| ==> Shows(root, hash, seen[i], before)
    ensures forall i :: 0 <= i < |more| ==> Shows(root, hash, more[i], before)
  {
    seen + [fs]
  }

  /** Every file system seen on the way shows the old chunk files or the new ones. */
  ghost predicate Atomic(root: string, hash: string -> string, seen: seq<FileSystem>,
                         before: map<ChunkId, seq<byte>>, after: map<ChunkId, seq<byte>>)
    requires IdealHash(hash)
  {
    forall i :: 0 <= i < |seen| ==> Shows(root, hash, seen[i], before) || Shows(root, hash, seen[i], after)
  }

  class Storage {
    const journal: Journal
    const root: string
    const hash: string -> string
    var fs: FileSystem
    ghost var files: map<ChunkId, seq<byte>>

    ghost predicate Valid()
      reads this
    {
      IdealHash(hash) && Shows(root, hash, fs, files)
    }

    constructor (journal: Journal, root: string, hash: string -> string)
      requires IdealHash(hash)
      ensures Valid() && files == map[] && this.journal == journal
    {
      this.journal, this.root, this.hash, fs, files := journal, root, hash, map[], map[];
    }

    /** Open, seek when the offset is not zero, read exactly `length` bytes. */
    method ReadChunkRange(id: ChunkId, offset: nat, length: nat) returns (r: Piece)
      requires Valid()
      ensures r == ReadFile(files, id, offset, length)
    {
      var path := ChunkPath(root, hash, id);
      if path !in fs {
        return Broken;
      }
      var file := fs[path];
      var position := 0;
      if offset > 0 {
        position := offset;
      }
      if length == 0 {
        return Data([]);
      }
      if position + length > |file| {
        return Broken;
      }
      r := Data(file[position..position + length]);
    }

    /**
     * Create a temporary file, fill it, rename it over the chunk's file. `cut` is how much of the data reached the
     * temporary file when it was looked at; `seen` is what a crash may leave. A refusing disk fails the write.
     */
    method WriteChunk(id: ChunkId, data: seq<byte>, disk: Disk, ghost cut: nat) returns (ok: bool, ghost seen: seq<FileSystem>)
      requires Valid()
      modifies this`fs, this`files, journal
      ensures Valid()
      ensures ok <==> id !in disk.unwritable
      ensures files == if ok then old(files)[id := data] else old(files)
      ensures journal.log == old(journal.log) + (if ok then [SetFile(id, data)] else [])
      ensures |seen| == (if ok then 4 else 3)
      ensures Atomic(root, hash, seen, old(files), files)
    {
      var target := ChunkPath(root, hash, id);
      var temp := WithExtension(target, "tmp");
      TempPath(root, hash, id);
      ghost var before := files;
      ShowsTemp(root, hash, fs, before, id, []);
      fs := fs[temp := []];
      seen := SeenMore(root, hash, [], before, fs);
      ghost var part := data[..Min(cut, |data|)];
      ShowsTemp(root, hash, fs, before, id, part);
      seen := SeenMore(root, hash, seen, before, fs[temp := part]);
      if id in disk.unwritable {
        seen := SeenMore(root, hash, seen, before, fs);
        return false, seen;
      }
      ShowsTemp(root, hash, fs, before, id, data);
      fs := fs[temp := data];
      seen := SeenMore(root, hash, seen, before, fs);
      ShowsPut(root, hash, fs, before, id, data);
      ShowsRemoveTemp(root, hash, fs[target := data], before[id := data], id);
      fs := fs[target := fs[temp]] - {temp};
      files := files[id := data];
      journal.Note([SetFile(id, data)]);
      seen := seen + [fs];
      ok := true;
    }

    /** Unlink the file if it exists; a missing file is no error. */
    method DeleteChunk(id: ChunkId, disk: Disk) returns (ok: bool)
      requires Valid()
      modifies this`fs, this`files, journal
      ensures Valid()
      ensures ok <==> id !in old(files) || id !in disk.undeletable
      ensures files == if id in disk.undeletable then old(files) else old(files) - {id}
      ensures journal.log == old(journal.log) + DeleteChunkFile(id, disk)
    {
      var path := ChunkPath(root, hash, id);
      if path in fs {
        if id in disk.undeletable {
          return false;
        }
        ShowsDelete(root, hash, fs, files, id);
        fs := fs - {path};
        files := files - {id};
      }
      journal.Note(DeleteChunkFile(id, disk));
      ok := true;
    }

    /** `fs::copy` between chunk files: truncate, then fill; a file copied onto itself is truncated. */
    method CopyChunkFile(source: ChunkId, target: ChunkId)
      requires Valid()
      modifies this`fs, this`files, journal
      ensures Valid()
      ensures files == if source in old(files) then
                         old(files)[target := if source == target then [] else old(files)[source]]
                       else old(files)
      ensures journal.log == old(journal.log) + CopyFile(old(files), source, target)
    {
      var srcPath := ChunkPath(root, hash, source);
      var destPath := ChunkPath(root, hash, target);
      if srcPath in fs {
        ChunkPathInjective(root, hash, source, target);
        ghost var copied := CopyFile(files, source, target);
        ShowsPut(root, hash, fs, files, target, []);
        fs, files := fs[destPath := []], files[target := []];
        if srcPath != destPath {
          var data := fs[srcPath];
          ShowsPut(root, hash, fs, files, target, data);
          fs, files := fs[destPath := data], files[target := data];
        }
        journal.Note(copied);
      }
    }
  }

  lemma ShowsRemoveTemp(root: string, hash: string -> string, fs: FileSystem, files: map<ChunkId, seq<byte>>, id: ChunkId)
    requires IdealHash(hash) && Shows(root, hash, fs, files)
    ensures Shows(root, hash, fs - {WithExtension(ChunkPath(root, hash, id), "tmp")}, files)
  {
    TempPath(root, hash, id);
  }
}
