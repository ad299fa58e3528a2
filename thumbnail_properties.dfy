/**
 * Properties of the thumbnail engine: the shape and injectivity of cache
 * paths, the freshness rule, what saving and deleting leave on disk, when the
 * completion callback fires, and that a thumbnail just saved is found valid.
 */
module ThumbnailProperties {
  import opened Text
  import Paths
  import CacheKey
  import Cover
  import opened ThumbnailTools

  // ---------------------------------------------------------------------
  // Cache paths

  lemma ThumbNameIsPlain(uri: string, b: Backend)
    ensures var name := CacheKey.HexDigest(b.md5(uri)) + ".png";
            |name| == 36 && Paths.Sep !in name && name[0] != Paths.Sep
  {
    var hex := CacheKey.HexDigest(b.md5(uri));
    CacheKey.HexDigestRoundTrip(b.md5(uri));
    var name := hex + ".png";
    forall k | 0 <= k < |name| ensures name[k] != Paths.Sep {
      if k < |hex| { assert CacheKey.IsHexChar(hex[k]); }
    }
  }

  /** The thumb file's name is the 32-digit hex digest of the URI plus ".png", inside `dst_dir`. */
  lemma ThumbpathShape(t: Thumbnailer, uri: string, b: Backend)
    ensures Paths.Basename(t.UriToThumbpath(uri, b)) == CacheKey.HexDigest(b.md5(uri)) + ".png"
    ensures |CacheKey.HexDigest(b.md5(uri))| == 32
    ensures |t.dstDir| > 0 && t.dstDir[|t.dstDir| - 1] != Paths.Sep ==>
              Paths.Dirname(t.UriToThumbpath(uri, b)) == t.dstDir
  {
    ThumbNameIsPlain(uri, b);
    CacheKey.HexDigestRoundTrip(b.md5(uri));
    var name := CacheKey.HexDigest(b.md5(uri)) + ".png";
    Paths.BasenameOfJoin(t.dstDir, name);
    if |t.dstDir| > 0 && t.dstDir[|t.dstDir| - 1] != Paths.Sep {
      Paths.DirnameOfJoin(t.dstDir, name);
    }
  }

  /** Two URIs share a cache file exactly when their digests agree. */
  lemma UriToThumbpathInjective(t: Thumbnailer, u1: string, u2: string, b: Backend)
    ensures t.UriToThumbpath(u1, b) == t.UriToThumbpath(u2, b) <==> b.md5(u1) == b.md5(u2)
  {
    var h1, h2 := CacheKey.HexDigest(b.md5(u1)), CacheKey.HexDigest(b.md5(u2));
    ThumbNameIsPlain(u1, b);
    ThumbNameIsPlain(u2, b);
    Paths.JoinCancel(t.dstDir, h1 + ".png", h2 + ".png");
    CacheKey.HexDigestInjective(b.md5(u1), b.md5(u2));
    CacheKey.HexDigestRoundTrip(b.md5(u1));
    CacheKey.HexDigestRoundTrip(b.md5(u2));
    if h1 + ".png" == h2 + ".png" {
      assert h1 == (h1 + ".png")[..32] == (h2 + ".png")[..32] == h2;
    }
  }

  /** The source path enters the cache path only through `normpath`. */
  lemma SameNormpathSameThumbpath(t: Thumbnailer, p1: string, p2: string, b: Backend)
    requires b.normpath(p1) == b.normpath(p2)
    ensures t.PathToThumbpath(p1, b) == t.PathToThumbpath(p2, b)
  {
  }

  // ---------------------------------------------------------------------
  // Freshness

  /**
   * `_thumbnail_exists` is true exactly when recreation is not forced, the
   * thumb file opens as an image whose stored MTime parses, that MTime equals
   * the source's (a missing source or a zero mtime takes the stored value
   * instead), and the longer side matches the requested one.
   */
  lemma FreshnessRule(t: Thumbnailer, filepath: string, files: map<string, File>, b: Backend)
    ensures t.ThumbnailExists(filepath, files, b) == Done(true) <==>
              var tp := t.PathToThumbpath(filepath, b);
              && !t.forceRecreation
              && tp in files && files[tp].content.Png?
              && StoredMTime in files[tp].content.info
              && ParseInt(files[tp].content.info[StoredMTime]).Some?
              && (filepath in files && files[filepath].stat.mtime != 0 ==>
                    ParseInt(files[tp].content.info[StoredMTime]).value == files[filepath].stat.mtime)
              && Max(files[tp].content.image.width, files[tp].content.image.height) == Max(t.width, t.height)
  {
  }

  /** A source whose mtime moved away from the stored one invalidates the thumbnail. */
  lemma ChangedSourceIsStale(t: Thumbnailer, filepath: string, files: map<string, File>, b: Backend)
    requires var tp := t.PathToThumbpath(filepath, b);
             tp in files && files[tp].content.Png? && StoredMTime in files[tp].content.info
             && ParseInt(files[tp].content.info[StoredMTime]).Some?
             && filepath in files && files[filepath].stat.mtime != 0
             && files[filepath].stat.mtime != ParseInt(files[tp].content.info[StoredMTime]).value
    ensures t.ThumbnailExists(filepath, files, b) == Done(false)
  {
  }

  /** With the source file gone, or reporting mtime 0, only the size is compared. */
  lemma MissingSourceTrustsStoredMTime(t: Thumbnailer, filepath: string, files: map<string, File>, b: Backend)
    requires !t.forceRecreation
    requires var tp := t.PathToThumbpath(filepath, b);
             tp in files && files[tp].content.Png? && StoredMTime in files[tp].content.info
             && ParseInt(files[tp].content.info[StoredMTime]).Some?
    requires filepath !in files || files[filepath].stat.mtime == 0
    ensures var img := files[t.PathToThumbpath(filepath, b)].content.image;
            t.ThumbnailExists(filepath, files, b) == Done(Max(img.width, img.height) == Max(t.width, t.height))
  {
  }

  /** A PNG without a readable MTime chunk is not a miss: the error escapes. */
  lemma BadStoredMTimeRaises(t: Thumbnailer, filepath: string, files: map<string, File>, b: Backend)
    requires !t.forceRecreation
    requires var tp := t.PathToThumbpath(filepath, b);
             tp in files && files[tp].content.Png?
             && (StoredMTime !in files[tp].content.info || ParseInt(files[tp].content.info[StoredMTime]).None?)
    ensures t.ThumbnailExists(filepath, files, b).Raised?
  {
  }

  /** `store_on_disk` plays no part in the check. */
  lemma FreshnessIgnoresStoreOnDisk(t1: Thumbnailer, t2: Thumbnailer, filepath: string, files: map<string, File>, b: Backend)
    requires t1.dstDir == t2.dstDir && t1.forceRecreation == t2.forceRecreation
    requires t1.width == t2.width && t1.height == t2.height
    ensures t1.ThumbnailExists(filepath, files, b) == t2.ThumbnailExists(filepath, files, b)
  {
  }

  // ---------------------------------------------------------------------
  // Text chunks

  lemma {:induction false} LookupFound(d: TextData, key: string)
    requires Lookup(d, key).Some?
    ensures exists i :: 0 <= i < |d| && d[i] == (key, Lookup(d, key).value)
    decreases |d|
  {
    if d[0].0 != key {
      LookupFound(d[1..], key);
      var i :| 0 <= i < |d[1..]| && d[1..][i] == (key, Lookup(d[1..], key).value);
      assert d[i + 1] == d[1..][i];
    }
  }

  lemma {:induction false} DictSetLookup(d: TextData, key: string, value: string)
    ensures Lookup(DictSet(d, key, value), key) == Some(value)
    decreases |d|
  {
    if |d| > 0 && d[0].0 != key {
      DictSetLookup(d[1..], key, value);
    }
  }

  lemma {:induction false} DictSetKeys(d: TextData, key: string, value: string)
    ensures forall i :: 0 <= i < |DictSet(d, key, value)| ==>
              DictSet(d, key, value)[i].0 == key || exists j :: 0 <= j < |d| && d[j].0 == DictSet(d, key, value)[i].0
    decreases |d|
  {
    if |d| > 0 && d[0].0 != key {
      DictSetKeys(d[1..], key, value);
      var r := DictSet(d, key, value);
      forall i | 0 <= i < |r| && r[i].0 != key
        ensures exists j :: 0 <= j < |d| && d[j].0 == r[i].0
      {
        if i == 0 {
          assert d[0].0 == r[0].0;
        } else {
          assert r[i] == DictSet(d[1..], key, value)[i - 1];
          var j :| 0 <= j < |d[1..]| && d[1..][j].0 == r[i].0;
          assert d[j + 1].0 == r[i].0;
        }
      }
    } else if |d| > 0 {
      var r := DictSet(d, key, value);
      forall i | 0 <= i < |r| && r[i].0 != key
        ensures exists j :: 0 <= j < |d| && d[j].0 == r[i].0
      {
        assert r[i] == d[i];
      }
    }
  }

  /** Assigning a `tEXt::` key keeps a dict acceptable to `savev`. */
  lemma {:induction false} DictSetValid(d: TextData, key: string, value: string)
    requires ValidText(d) && HasChunkPrefix(key)
    ensures ValidText(DictSet(d, key, value))
    decreases |d|
  {
    if |d| > 0 && d[0].0 != key {
      var rest := DictSet(d[1..], key, value);
      DictSetValid(d[1..], key, value);
      DictSetKeys(d[1..], key, value);
      var r := DictSet(d, key, value);
      forall i, j | 0 <= i < j < |r| ensures r[i].0 != r[j].0 {
        if i == 0 {
          assert r[j] == rest[j - 1];
          if rest[j - 1].0 != key {
            var k :| 0 <= k < |d[1..]| && d[1..][k].0 == rest[j - 1].0;
            assert d[k + 1].0 == rest[j - 1].0;
          }
        } else {
          assert r[i] == rest[i - 1] && r[j] == rest[j - 1];
        }
      }
      forall i | 0 <= i < |r| ensures HasChunkPrefix(r[i].0) {
        if i > 0 {
          assert r[i] == rest[i - 1];
        }
      }
    } else if |d| > 0 {
      var r := DictSet(d, key, value);
      assert forall i :: 1 <= i < |r| ==> r[i] == d[i];
    }
  }

  lemma ChunkNameInjective(k1: string, k2: string)
    requires HasChunkPrefix(k1) && HasChunkPrefix(k2) && k1 != k2
    ensures ChunkName(k1) != ChunkName(k2)
  {
    assert k1 == ChunkPrefix + ChunkName(k1);
    assert k2 == ChunkPrefix + ChunkName(k2);
  }

  /** A chunk written by `savev` and not overwritten later is read back with its value. */
  lemma {:induction false} PngInfoHas(keys: seq<string>, values: seq<string>, i: nat)
    requires |keys| == |values| && i < |keys|
    requires forall j :: i < j < |keys| ==> ChunkName(keys[j]) != ChunkName(keys[i])
    ensures ChunkName(keys[i]) in PngInfo(keys, values)
    ensures PngInfo(keys, values)[ChunkName(keys[i])] == values[i]
    decreases |keys|
  {
    if i < |keys| - 1 {
      PngInfoHas(keys[..|keys| - 1], values[..|values| - 1], i);
    }
  }

  /** The MTime recorded in the dict is what the image library reports after the save. */
  lemma SavedChunk(td: TextData, value: string)
    requires ValidText(td) && Lookup(td, MTimeKey) == Some(value)
    ensures StoredMTime in PngInfo(KeysOf(td), ValuesOf(td))
    ensures PngInfo(KeysOf(td), ValuesOf(td))[StoredMTime] == value
  {
    LookupFound(td, MTimeKey);
    var i :| 0 <= i < |td| && td[i] == (MTimeKey, value);
    var keys := KeysOf(td);
    assert ChunkName(keys[i]) == StoredMTime;
    forall j | i < j < |keys| ensures ChunkName(keys[j]) != ChunkName(keys[i]) {
      ChunkNameInjective(keys[j], keys[i]);
    }
    PngInfoHas(keys, ValuesOf(td), i);
  }

  // ---------------------------------------------------------------------
  // Saving and deleting

  /**
   * With no fault, a valid dict and a directory part, the save succeeds: the
   * thumb path holds the pixbuf with the dict's chunks and every other file is
   * as it was.
   */
  lemma SaveWrites(files: map<string, File>, dirs: set<string>, pixbuf: Pixbuf, thumbpath: string,
                   td: TextData, now: int, b: Backend)
    requires ValidText(td) && CanSave(files, dirs, thumbpath)
    ensures var s := SaveEffect(files, dirs, pixbuf, thumbpath, td, now, NoFault, b);
            && s.saved
            && thumbpath in s.files && s.files[thumbpath].content == Png(pixbuf, PngInfo(KeysOf(td), ValuesOf(td)))
            && (forall p :: p != thumbpath ==> (p in s.files <==> p in files))
            && (forall p :: p != thumbpath && p in files ==> s.files[p] == files[p])
            && Paths.Dirname(thumbpath) in s.dirs && dirs <= s.dirs
  {
    var keys := KeysOf(td);
    assert forall k :: k in keys ==> HasChunkPrefix(k) by {
      forall k | k in keys ensures HasChunkPrefix(k) {
        var i :| 0 <= i < |keys| && keys[i] == k;
        assert td[i].0 == k;
      }
    }
  }

  /** Saving is remove-then-write: when the write fails, the previous thumbnail is gone. */
  lemma FailedWriteLosesOldEntry(files: map<string, File>, dirs: set<string>, pixbuf: Pixbuf, thumbpath: string,
                                 td: TextData, now: int, b: Backend)
    requires thumbpath in files
    requires Paths.Dirname(thumbpath) != "" && Paths.Dirname(thumbpath) in dirs
    ensures var s := SaveEffect(files, dirs, pixbuf, thumbpath, td, now, WriteFails, b);
            !s.saved && thumbpath !in s.files && s.files == files - {thumbpath}
  {
  }

  /**
   * Whatever the injected fault, nothing is saved when the disk itself
   * forbids it; a file in the way of the directory leaves the disk as it was.
   * With no fault, the disk's state is the only reason a save can fail.
   */
  lemma SaveNeedsRoom(files: map<string, File>, dirs: set<string>, pixbuf: Pixbuf, thumbpath: string,
                      td: TextData, now: int, fault: SaveFault, b: Backend)
    ensures !CanSave(files, dirs, thumbpath) ==> !SaveEffect(files, dirs, pixbuf, thumbpath, td, now, fault, b).saved
    ensures var d := Paths.Dirname(thumbpath);
            d !in dirs && FileOnPath(files, d) ==>
              SaveEffect(files, dirs, pixbuf, thumbpath, td, now, fault, b) == SaveResult(files, dirs, false)
    ensures ValidText(td) ==>
              (SaveEffect(files, dirs, pixbuf, thumbpath, td, now, NoFault, b).saved <==> CanSave(files, dirs, thumbpath))
  {
    if ValidText(td) && CanSave(files, dirs, thumbpath) {
      SaveWrites(files, dirs, pixbuf, thumbpath, td, now, b);
    }
  }

  /** Without a directory part (an empty `dst_dir`) nothing is ever written. */
  lemma NoDirectoryNoSave(files: map<string, File>, dirs: set<string>, pixbuf: Pixbuf, thumbpath: string,
                          td: TextData, now: int, fault: SaveFault, b: Backend)
    requires Paths.Dirname(thumbpath) == ""
    ensures SaveEffect(files, dirs, pixbuf, thumbpath, td, now, fault, b) == SaveResult(files, dirs, false)
  {
  }

  /** `delete` removes the thumb file when it can; a second call changes nothing. */
  lemma DeleteIdempotent(files: map<string, File>, thumbpath: string, removeFails: bool)
    ensures thumbpath !in AfterDelete(files, thumbpath, false)
    ensures AfterDelete(AfterDelete(files, thumbpath, false), thumbpath, removeFails) == AfterDelete(files, thumbpath, false)
    ensures forall p :: p != thumbpath ==>
              (p in AfterDelete(files, thumbpath, removeFails) <==> p in files)
  {
  }

  // ---------------------------------------------------------------------
  // Creation

  /** Turning archive support off means the archive collaborators are never consulted. */
  lemma ArchiveSupportOffIgnoresArchives(t: Thumbnailer, filepath: string, files: map<string, File>, b: Backend,
                                         mimeType: string -> Option<int>, isArchive: string -> bool,
                                         open: (string, int) -> Handler)
    requires !t.archiveSupport
    ensures t.CreateThumbnailPixbuf(filepath, files, b)
         == t.CreateThumbnailPixbuf(filepath, files, b.(archiveMimeType := mimeType, isArchiveFile := isArchive, openArchive := open))
  {
  }

  /**
   * An encrypted archive yields the placeholder image: its member list and
   * its extraction are never used.
   */
  lemma EncryptedUsesPlaceholder(t: Thumbnailer, filepath: string, a1: Archive, a2: Archive,
                                 files: map<string, File>, b: Backend)
    requires a1.isEncrypted && a2.isEncrypted
    ensures t.ThumbnailFromArchive(filepath, a1, files, b) == t.ThumbnailFromArchive(filepath, a2, files, b)
    ensures t.ThumbnailFromArchive(filepath, a1, files, b).Done? ==>
              t.ThumbnailFromArchive(filepath, a1, files, b).value.pixbuf
                == b.loadPixbufSize(b.encryptedImagePath, t.width, t.height)
  {
  }

  /** An archive for which no handler can be made is not skipped: entering the `with` raises. */
  lemma MissingHandlerRaises(t: Thumbnailer, filepath: string, files: map<string, File>, dirs: set<string>,
                             b: Backend, now: int, fault: SaveFault)
    requires t.archiveSupport && b.archiveMimeType(filepath).Some? && b.isArchiveFile(filepath)
    requires b.openArchive(filepath, b.archiveMimeType(filepath).value) == NoHandler
    ensures t.CreateThumbnailPixbuf(filepath, files, b) == Raised(NotAContextManager)
    ensures var e := t.CreateEffect(filepath, files, dirs, b, now, fault);
            e.result == Raised(NotAContextManager) && e.events == [] && e.files == files && e.dirs == dirs
  {
  }

  /**
   * Whenever a dict is produced, the source file exists, the dict is
   * acceptable to `savev`, and its MTime is the source's own mtime (for an
   * archive, the archive's, not the extracted image's).
   */
  lemma TextDataRecordsSourceMTime(t: Thumbnailer, filepath: string, files: map<string, File>, b: Backend)
    requires t.CreateThumbnailPixbuf(filepath, files, b).Done?
    requires t.CreateThumbnailPixbuf(filepath, files, b).value.textData.Some?
    ensures var td := t.CreateThumbnailPixbuf(filepath, files, b).value.textData.value;
            filepath in files && ValidText(td) && Lookup(td, MTimeKey) == Some(IntToString(files[filepath].stat.mtime))
  {
    var mime := if t.archiveSupport then b.archiveMimeType(filepath) else None;
    if mime.Some? {
      var archive := b.openArchive(filepath, mime.value).entered.value;
      var r := t.ThumbnailFromArchive(filepath, archive, files, b);
      assert r == t.CreateThumbnailPixbuf(filepath, files, b);
      var td := r.value.textData.value;
      var source: Option<(string, Option<Stat>)> :=
        if archive.isEncrypted then Some((b.encryptedImagePath, StatOf(files, b.encryptedImagePath)))
        else match Cover.GuessCover(archive.contents, b.normpath, b.isImageName, b.alphanumericLeq)
          case None => None
          case Some(wanted) =>
            var extracted := archive.extract(wanted);
            if extracted.stat.None? then None else Some((extracted.path, extracted.stat));
      var imagePath, imageStat := source.value.0, source.value.1;
      var base := GetTextData(imagePath, imageStat.value, b);
      assert td == DictSet(base, MTimeKey, IntToString(files[filepath].stat.mtime));
      DictSetValid(base, MTimeKey, IntToString(files[filepath].stat.mtime));
      DictSetLookup(base, MTimeKey, IntToString(files[filepath].stat.mtime));
    }
  }

  /**
   * `_create_thumbnail` fires `thumbnail_finished` exactly once, first, with
   * the pixbuf it returns; it saves (after the callback) exactly when there is
   * a pixbuf and storing is on. When creation raises, nothing fires and
   * nothing is saved.
   */
  lemma CreateNotifiesOnceThenSaves(t: Thumbnailer, filepath: string, files: map<string, File>, dirs: set<string>,
                                    b: Backend, now: int, fault: SaveFault)
    ensures var e := t.CreateEffect(filepath, files, dirs, b, now, fault);
            e.result.Raised? ==> e.events == [] && e.files == files && e.dirs == dirs
    ensures var e := t.CreateEffect(filepath, files, dirs, b, now, fault);
            e.result.Done? ==>
              && |e.events| >= 1 && e.events[0] == Finished(filepath, e.result.value)
              && (forall i :: 1 <= i < |e.events| ==> !e.events[i].Finished?)
              && ((exists i :: 0 <= i < |e.events| && e.events[i].SaveAttempted?) <==> e.result.value.Some? && t.storeOnDisk)
    ensures var e := t.CreateEffect(filepath, files, dirs, b, now, fault);
            !(e.result.Done? && e.result.value.Some? && t.storeOnDisk) ==> e.files == files && e.dirs == dirs
  {
    var c := t.CreateThumbnailPixbuf(filepath, files, b);
    var e := t.CreateEffect(filepath, files, dirs, b, now, fault);
    if c.Done? {
      if c.value.pixbuf.Some? && t.storeOnDisk {
        var tp := t.PathToThumbpath(filepath, b);
        assert e.events == [Finished(filepath, c.value.pixbuf), SaveAttempted(tp)];
        assert e.events[1].SaveAttempted?;
      } else {
        assert e.events == [Finished(filepath, c.value.pixbuf)];
        assert e.files == files && e.dirs == dirs;
      }
    }
  }

  /**
   * Round trip: a thumbnail created and stored without fault is afterwards
   * valid, as long as the requested size matches the stored pixbuf's longer
   * side.
   */
  lemma CreatedThumbnailIsFresh(t: Thumbnailer, filepath: string, files: map<string, File>, dirs: set<string>,
                                b: Backend, now: int)
    requires !t.forceRecreation && t.storeOnDisk
    requires CanSave(files, dirs, t.PathToThumbpath(filepath, b))
    requires t.PathToThumbpath(filepath, b) != filepath
    requires var r := t.CreateEffect(filepath, files, dirs, b, now, NoFault).result;
             r.Done? && r.value.Some?
    ensures var e := t.CreateEffect(filepath, files, dirs, b, now, NoFault);
            var p := e.result.value.value;
            t.ThumbnailExists(filepath, e.files, b) == Done(Max(p.width, p.height) == Max(t.width, t.height))
  {
    var created := t.CreateThumbnailPixbuf(filepath, files, b);
    var p := created.value.pixbuf.value;
    var td := created.value.textData.value;
    TextDataRecordsSourceMTime(t, filepath, files, b);
    var tp := t.PathToThumbpath(filepath, b);
    SaveWrites(files, dirs, p, tp, td, now, b);
    var m := files[filepath].stat.mtime;
    SavedChunk(td, IntToString(m));
    ParseIntOfIntToString(m);
    var s := SaveEffect(files, dirs, p, tp, td, now, NoFault, b);
    assert s.files[tp].content.info[StoredMTime] == IntToString(m);
    assert filepath in s.files && s.files[filepath] == files[filepath];
  }
}
