/**
 * The thumbnail engine of MComix (`Thumbnailer` in thumbnail_tools.py).
 *
 * A cache directory is a map from path to file; a file is either a PNG that
 * the image library can open (its pixels and its text chunks) or something
 * it rejects with an IOError. The file system is a `Disk` object whose
 * `files` and `dirs` the methods change; `os.path.join`, `basename` and
 * `dirname` are the functions of `Paths`, and `str`/`float` of an mtime those
 * of `Text`. The other libraries the engine calls are fields of `Backend`,
 * left uninterpreted and total. An exception the engine's own code raises and
 * does not catch (from `os.stat` of a missing file, a dict lookup, `float()`,
 * or `with` on None) comes back as `Raised`.
 *
 * A modification time is an integer; `str(st_mtime)` is its decimal form and
 * `float(...)` reads that form back.
 */
module ThumbnailTools {
  import opened Text
  import Paths
  import CacheKey
  import Cover

  /** A decoded image. */
  datatype Pixbuf = Pixbuf(width: nat, height: nat, pixels: seq<int>)

  /** What `os.stat` reports that the engine uses. */
  datatype Stat = Stat(mtime: int, size: int)

  datatype Content =
    | Png(image: Pixbuf, info: map<string, string>)  // opens as an image; `info` holds its text chunks
    | Unreadable                                    // opening it raises IOError

  datatype File = File(stat: Stat, content: Content)

  /** A dict in insertion order, as `_get_text_data` builds it. */
  type TextData = seq<(string, string)>

  /** The result of `archive.extract(name)`: the path written and the file found there, if any. */
  datatype Extracted = Extracted(path: string, stat: Option<Stat>)

  /** An opened archive handler. */
  datatype Archive = Archive(isEncrypted: bool, contents: seq<string>, extract: string -> Extracted)

  /**
   * What `get_recursive_archive_handler` returns: no handler at all (None,
   * which the `with` statement cannot enter), or a context manager whose
   * `__enter__` yields an archive or None.
   */
  datatype Handler = NoHandler | Handler(entered: Option<Archive>)

  /** The collaborators. */
  datatype Backend = Backend(
    normpath: string -> string,                       // os.path.normpath
    pathname2url: string -> string,                   // urllib.request.pathname2url
    uriPrefix: string,                                // portability.uri_prefix()
    md5: string -> CacheKey.Digest,                   // md5(uri.encode()).digest()
    archiveMimeType: string -> Option<int>,           // archive_tools.archive_mime_type
    isArchiveFile: string -> bool,                    // archive_tools.is_archive_file
    openArchive: (string, int) -> Handler,            // archive_tools.get_recursive_archive_handler
    isImageName: string -> bool,                      // image_tools.is_image_file(name)
    isImageFile: string -> bool,                      // image_tools.is_image_file(path, check_mimetype=True)
    loadPixbufSize: (string, int, int) -> Option<Pixbuf>,  // image_tools.load_pixbuf_size
    guessType: string -> Option<string>,              // mimetypes.guess_type(path)[0]
    imageInfo: string -> (string, int, int),          // image_tools.get_image_info
    encryptedImagePath: string,                       // tools.pkg_path('images', 'encrypted-book.png')
    alphanumericLeq: (string, string) -> bool,        // the order of tools.alphanumeric_sort
    version: string,                                  // constants.VERSION
    encodedSize: Pixbuf -> nat)                       // size of the PNG that savev writes

  /** The exceptions that escape the engine. */
  datatype PyError =
    | FileNotFound(path: string)
    | KeyError(key: string)
    | ValueError(text: string)
    | NotAContextManager  // `with None:` (AttributeError `__enter__`, or TypeError from Python 3.11 on)

  datatype Outcome<+T> = Done(value: T) | Raised(error: PyError)

  /** `(pixbuf, tEXt_data)` as `_create_thumbnail_pixbuf` returns it. */
  datatype Created = Created(pixbuf: Option<Pixbuf>, textData: Option<TextData>)

  /** The two preferences the engine reads. */
  datatype Prefs = Prefs(createThumbnails: bool, thumbnailSize: int)

  /** What the engine does that an observer can see, in order. */
  datatype Event =
    | Finished(filepath: string, pixbuf: Option<Pixbuf>)  // thumbnail_finished fired
    | SaveAttempted(thumbpath: string)                   // _save_thumbnail called
    | Spawned(filepath: string)                          // a background creation thread started

  /** Where `_save_thumbnail` meets an error (which it logs and swallows). */
  datatype SaveFault = NoFault | MakeDirsFails | RemoveFails | WriteFails

  datatype SaveResult = SaveResult(files: map<string, File>, dirs: set<string>, saved: bool)

  /** The observable effect of one `_create_thumbnail` call. */
  datatype Effect = Effect(result: Outcome<Option<Pixbuf>>, events: seq<Event>, files: map<string, File>, dirs: set<string>)

  /** The file system the cache lives in: regular files and existing directories. */
  class Disk {
    var files: map<string, File>
    var dirs: set<string>

    constructor (files: map<string, File>, dirs: set<string>)
      ensures this.files == files && this.dirs == dirs
    {
      this.files := files;
      this.dirs := dirs;
    }
  }

  // ---------------------------------------------------------------------
  // Text chunks

  const ChunkPrefix := "tEXt::"
  const UriKey := "tEXt::Thumb::URI"
  const MTimeKey := "tEXt::Thumb::MTime"
  const SizeKey := "tEXt::Thumb::Size"
  const MimetypeKey := "tEXt::Thumb::Mimetype"
  const WidthKey := "tEXt::Thumb::Image::Width"
  const HeightKey := "tEXt::Thumb::Image::Height"
  const SoftwareKey := "tEXt::Software"

  /** The key under which the image library reports the stored MTime. */
  const StoredMTime := "Thumb::MTime"

  predicate HasChunkPrefix(key: string) {
    IsPrefix(ChunkPrefix, key)
  }

  /** The name of the PNG text chunk that a `tEXt::` option key writes. */
  function ChunkName(key: string): string {
    if HasChunkPrefix(key) then key[|ChunkPrefix|..] else key
  }

  predicate DistinctKeys(d: TextData) {
    forall i, j :: 0 <= i < j < |d| ==> d[i].0 != d[j].0
  }

  /** A dict that `savev` accepts: distinct keys, each a `tEXt::` option. */
  predicate ValidText(d: TextData) {
    DistinctKeys(d) && forall i :: 0 <= i < |d| ==> HasChunkPrefix(d[i].0)
  }

  function Lookup(d: TextData, key: string): Option<string>
    decreases |d|
  {
    if |d| == 0 then None else if d[0].0 == key then Some(d[0].1) else Lookup(d[1..], key)
  }

  /** `d[key] = value`: replaced in place if present, appended otherwise. */
  function DictSet(d: TextData, key: string, value: string): TextData
    decreases |d|
  {
    if |d| == 0 then [(key, value)]
    else if d[0].0 == key then [(key, value)] + d[1..]
    else [d[0]] + DictSet(d[1..], key, value)
  }

  function KeysOf(d: TextData): seq<string> {
    seq(|d|, i requires 0 <= i < |d| => d[i].0)
  }

  function ValuesOf(d: TextData): seq<string> {
    seq(|d|, i requires 0 <= i < |d| => d[i].1)
  }

  /** The text chunks of the PNG that `savev(path, 'png', keys, values)` writes, as the image library reads them back. */
  function PngInfo(keys: seq<string>, values: seq<string>): map<string, string>
    requires |keys| == |values|
    decreases |keys|
  {
    if |keys| == 0 then map[]
    else PngInfo(keys[..|keys| - 1], values[..|values| - 1])[ChunkName(keys[|keys| - 1]) := values[|values| - 1]]
  }

  // ---------------------------------------------------------------------
  // Pure helpers of the engine

  function Max(a: int, b: int): int {
    if a >= b then a else b
  }

  function StatOf(files: map<string, File>, path: string): Option<Stat> {
    if path in files then Some(files[path].stat) else None
  }

  /** `uri_prefix() + pathname2url(normpath(path))`. */
  function Uri(path: string, b: Backend): string {
    b.uriPrefix + b.pathname2url(b.normpath(path))
  }

  /** `_get_text_data(filepath)`, given what `os.stat(filepath)` reports. */
  function GetTextData(filepath: string, st: Stat, b: Backend): (d: TextData)
    ensures ValidText(d) && |d| == 7
    ensures d[0].0 == UriKey && d[1].0 == MTimeKey && d[2].0 == SizeKey && d[3].0 == MimetypeKey
    ensures d[4].0 == WidthKey && d[5].0 == HeightKey && d[6].0 == SoftwareKey
    ensures Lookup(d, MTimeKey) == Some(IntToString(st.mtime))
    ensures Lookup(d, UriKey) == Some(Uri(filepath, b))
  {
    var guessed := b.guessType(filepath);
    var mime := if guessed.None? || guessed.value == "" then "unknown/mime" else guessed.value;
    var info := b.imageInfo(filepath);
    [ (UriKey, Uri(filepath, b)),
      (MTimeKey, IntToString(st.mtime)),
      (SizeKey, IntToString(st.size)),
      (MimetypeKey, mime),
      (WidthKey, IntToString(info.1)),
      (HeightKey, IntToString(info.2)),
      (SoftwareKey, "MComix " + b.version) ]
  }

  /** The option lists `_save_thumbnail` builds from the dict, in its order. */
  method OptionLists(textData: TextData) returns (optionKeys: seq<string>, optionValues: seq<string>)
    ensures |optionKeys| == |optionValues| == |textData|
    ensures forall i :: 0 <= i < |textData| ==> textData[i] == (optionKeys[i], optionValues[i])
  {
    optionKeys, optionValues := [], [];
    var i := 0;
    while i < |textData|
      invariant 0 <= i <= |textData|
      invariant |optionKeys| == |optionValues| == i
      invariant forall k :: 0 <= k < i ==> textData[k] == (optionKeys[k], optionValues[k])
    {
      var (key, value) := textData[i];
      optionKeys := optionKeys + [key];
      optionValues := optionValues + [value];
      i := i + 1;
    }
  }

  /**
   * A regular file sits at `directory` or at one of its ancestors, so
   * `os.makedirs(directory)` cannot create it (FileExistsError or
   * NotADirectoryError).
   */
  predicate FileOnPath(files: map<string, File>, directory: string) {
    exists p :: p in files && (p == directory || IsPrefix(p + [Paths.Sep], directory))
  }

  /** The disk admits the save: there is a directory part, it exists or can be made, and the thumb path is not a directory. */
  predicate CanSave(files: map<string, File>, dirs: set<string>, thumbpath: string) {
    var directory := Paths.Dirname(thumbpath);
    directory != "" && (directory in dirs || !FileOnPath(files, directory))
    && thumbpath !in dirs && thumbpath != directory
  }

  /**
   * What `_save_thumbnail` leaves behind: the directory is created when
   * missing, an existing file is removed, then the PNG is written. Any
   * failure stops the sequence where it happened; nothing is rolled back.
   * `makedirs` fails for an empty name or a file in the way, `savev` when
   * the thumb path is a directory; `fault` selects the other failures.
   */
  function SaveEffect(files: map<string, File>, dirs: set<string>, pixbuf: Pixbuf, thumbpath: string,
                      textData: TextData, now: int, fault: SaveFault, b: Backend): SaveResult
  {
    var directory := Paths.Dirname(thumbpath);
    var needDir := directory == "" || directory !in dirs;
    if needDir && (directory == "" || fault == MakeDirsFails || FileOnPath(files, directory)) then
      SaveResult(files, dirs, false)
    else
      var dirs' := if needDir then dirs + {directory} else dirs;
      if thumbpath in files && fault == RemoveFails then SaveResult(files, dirs', false)
      else
        var files' := files - {thumbpath};
        var keys, values := KeysOf(textData), ValuesOf(textData);
        if fault == WriteFails || thumbpath in dirs' || !(forall k :: k in keys ==> HasChunkPrefix(k)) then
          SaveResult(files', dirs', false)
        else
          var png := File(Stat(now, b.encodedSize(pixbuf)), Png(pixbuf, PngInfo(keys, values)));
          SaveResult(files'[thumbpath := png], dirs', true)
  }

  /** `_save_thumbnail(pixbuf, thumbpath, text_data)`; `now` is the clock. */
  method SaveThumbnail(pixbuf: Pixbuf, thumbpath: string, textData: TextData, disk: Disk, b: Backend,
                       now: int, fault: SaveFault) returns (saved: bool)
    modifies disk
    ensures var s := SaveEffect(old(disk.files), old(disk.dirs), pixbuf, thumbpath, textData, now, fault, b);
            disk.files == s.files && disk.dirs == s.dirs && saved == s.saved
  {
    var directory := Paths.Dirname(thumbpath);
    if directory == "" || directory !in disk.dirs {
      if directory == "" || fault == MakeDirsFails || FileOnPath(disk.files, directory) {
        return false;
      }
      disk.dirs := disk.dirs + {directory};
    }
    if thumbpath in disk.files {
      if fault == RemoveFails {
        return false;
      }
      disk.files := disk.files - {thumbpath};
    }
    var optionKeys, optionValues := OptionLists(textData);
    assert optionKeys == KeysOf(textData) && optionValues == ValuesOf(textData);
    if fault == WriteFails || thumbpath in disk.dirs || !(forall k :: k in optionKeys ==> HasChunkPrefix(k)) {
      return false;
    }
    var png := File(Stat(now, b.encodedSize(pixbuf)), Png(pixbuf, PngInfo(optionKeys, optionValues)));
    disk.files := disk.files[thumbpath := png];
    return true;
  }

  /** What `delete` leaves: the thumb file is removed if it is there and removal succeeds. */
  function AfterDelete(files: map<string, File>, thumbpath: string, removeFails: bool): map<string, File> {
    if thumbpath in files && !removeFails then files - {thumbpath} else files
  }

  // ---------------------------------------------------------------------
  // The engine

  class Thumbnailer {
    const dstDir: string
    const storeOnDisk: bool
    var width: int
    var height: int
    const defaultSizes: bool
    const forceRecreation: bool
    const archiveSupport: bool
    /** Every `thumbnail_finished` call and save attempt, oldest first. */
    var trace: seq<Event>

    /** `Thumbnailer(dst_dir, store_on_disk, size, force_recreation, archive_support)`; None stands for the preference. */
    constructor (dstDir: string, storeOnDisk: Option<bool>, size: Option<(int, int)>,
                 forceRecreation: bool, archiveSupport: bool, prefs: Prefs)
      ensures this.dstDir == dstDir
      ensures this.storeOnDisk == storeOnDisk.GetOr(prefs.createThumbnails)
      ensures this.defaultSizes == size.None?
      ensures size.None? ==> width == height == prefs.thumbnailSize
      ensures size.Some? ==> (width, height) == size.value
      ensures this.forceRecreation == forceRecreation && this.archiveSupport == archiveSupport
      ensures trace == []
    {
      this.dstDir := dstDir;
      this.storeOnDisk := if storeOnDisk.None? then prefs.createThumbnails else storeOnDisk.value;
      if size.None? {
        width, height := prefs.thumbnailSize, prefs.thumbnailSize;
        defaultSizes := true;
      } else {
        width, height := size.value.0, size.value.1;
        defaultSizes := false;
      }
      this.forceRecreation := forceRecreation;
      this.archiveSupport := archiveSupport;
      trace := [];
    }

    /** `_uri_to_thumbpath`: `dst_dir` joined with the hex digest of the URI and ".png". */
    function UriToThumbpath(uri: string, b: Backend): string {
      Paths.Join(dstDir, CacheKey.HexDigest(b.md5(uri)) + ".png")
    }

    /** `_path_to_thumbpath`. */
    function PathToThumbpath(filepath: string, b: Backend): string {
      UriToThumbpath(Uri(filepath, b), b)
    }

    /** `_thumbnail_exists`: is there a stored thumbnail that is still valid? */
    function ThumbnailExists(filepath: string, files: map<string, File>, b: Backend): (r: Outcome<bool>)
      reads this`width, this`height
      ensures forceRecreation ==> r == Done(false)
      ensures PathToThumbpath(filepath, b) !in files ==> r == Done(false)
      ensures r == Done(true) ==>
                var tp := PathToThumbpath(filepath, b);
                tp in files && files[tp].content.Png? && StoredMTime in files[tp].content.info
                && ParseInt(files[tp].content.info[StoredMTime]).Some?
                && Max(files[tp].content.image.width, files[tp].content.image.height) == Max(width, height)
      ensures r.Raised? ==>
                var tp := PathToThumbpath(filepath, b);
                tp in files && files[tp].content.Png?
                && (StoredMTime !in files[tp].content.info || ParseInt(files[tp].content.info[StoredMTime]).None?)
    {
      if forceRecreation then Done(false)
      else
        var thumbpath := PathToThumbpath(filepath, b);
        if thumbpath !in files then Done(false)
        else match files[thumbpath].content
          case Unreadable => Done(false)
          case Png(img, info) =>
            if StoredMTime !in info then Raised(KeyError(StoredMTime))
            else match ParseInt(info[StoredMTime])
              case None => Raised(ValueError(info[StoredMTime]))
              case Some(storedMTime) =>
                // `isfile(filepath) and stat(filepath).st_mtime or stored_mtime`
                var fileMTime :=
                  if filepath in files && files[filepath].stat.mtime != 0 then files[filepath].stat.mtime
                  else storedMTime;
                Done(storedMTime == fileMTime && Max(img.width, img.height) == Max(width, height))
    }

    /** The archive branch of `_create_thumbnail_pixbuf`, once the archive is open. */
    function ThumbnailFromArchive(filepath: string, archive: Archive, files: map<string, File>, b: Backend): (r: Outcome<Created>)
      reads this`width, this`height
      ensures r.Done? && r.value.textData.Some? ==> storeOnDisk
      ensures r.Done? && r.value.pixbuf.Some? && storeOnDisk ==> r.value.textData.Some?
    {
      var source: Option<(string, Option<Stat>)> :=
        if archive.isEncrypted then Some((b.encryptedImagePath, StatOf(files, b.encryptedImagePath)))
        else match Cover.GuessCover(archive.contents, b.normpath, b.isImageName, b.alphanumericLeq)
          case None => None
          case Some(wanted) =>
            var extracted := archive.extract(wanted);
            if extracted.stat.None? then None else Some((extracted.path, extracted.stat));
      match source
      case None => Done(Created(None, None))
      case Some((imagePath, imageStat)) =>
        var pixbuf := b.loadPixbufSize(imagePath, width, height);
        if !storeOnDisk then Done(Created(pixbuf, None))
        else if imageStat.None? then Raised(FileNotFound(imagePath))
        else if filepath !in files then Raised(FileNotFound(filepath))
        else
          var textData := GetTextData(imagePath, imageStat.value, b);
          // the archive's own mtime replaces the image's
          Done(Created(pixbuf, Some(DictSet(textData, MTimeKey, IntToString(files[filepath].stat.mtime)))))
    }

    /** `_create_thumbnail_pixbuf`: archive, plain image, or nothing. */
    function CreateThumbnailPixbuf(filepath: string, files: map<string, File>, b: Backend): (r: Outcome<Created>)
      reads this`width, this`height
      ensures r.Done? && r.value.textData.Some? ==> storeOnDisk
      ensures r.Done? && r.value.pixbuf.Some? && storeOnDisk ==> r.value.textData.Some?
    {
      var mime := if archiveSupport then b.archiveMimeType(filepath) else None;
      if mime.Some? then
        if !b.isArchiveFile(filepath) then Done(Created(None, None))
        else match b.openArchive(filepath, mime.value)
          case NoHandler => Raised(NotAContextManager)
          case Handler(None) => Done(Created(None, None))
          case Handler(Some(archive)) => ThumbnailFromArchive(filepath, archive, files, b)
      else if b.isImageFile(filepath) then
        var pixbuf := b.loadPixbufSize(filepath, width, height);
        if !storeOnDisk then Done(Created(pixbuf, None))
        else if filepath !in files then Raised(FileNotFound(filepath))
        else Done(Created(pixbuf, Some(GetTextData(filepath, files[filepath].stat, b))))
      else Done(Created(None, None))
    }

    /** The effect of `_create_thumbnail`: notify first, then save if there is a pixbuf and storing is on. */
    function CreateEffect(filepath: string, files: map<string, File>, dirs: set<string>, b: Backend,
                          now: int, fault: SaveFault): Effect
      reads this`width, this`height
    {
      EffectOf(CreateThumbnailPixbuf(filepath, files, b), filepath, files, dirs, b, now, fault)
    }

    /** The effect of `_create_thumbnail` once `_create_thumbnail_pixbuf` has given `created`. */
    function EffectOf(created: Outcome<Created>, filepath: string, files: map<string, File>, dirs: set<string>,
                      b: Backend, now: int, fault: SaveFault): Effect
      requires created.Done? && created.value.pixbuf.Some? && storeOnDisk ==> created.value.textData.Some?
    {
      match created
      case Raised(e) => Effect(Raised(e), [], files, dirs)
      case Done(c) =>
        if c.pixbuf.Some? && storeOnDisk then
          var thumbpath := PathToThumbpath(filepath, b);
          var s := SaveEffect(files, dirs, c.pixbuf.value, thumbpath, c.textData.value, now, fault, b);
          Effect(Done(c.pixbuf), [Finished(filepath, c.pixbuf), SaveAttempted(thumbpath)], s.files, s.dirs)
        else
          Effect(Done(c.pixbuf), [Finished(filepath, c.pixbuf)], files, dirs)
    }

    /** `_create_thumbnail(filepath)`. */
    method CreateThumbnail(filepath: string, disk: Disk, b: Backend, now: int, fault: SaveFault)
      returns (r: Outcome<Option<Pixbuf>>)
      modifies this`trace, disk
      ensures var e := CreateEffect(filepath, old(disk.files), old(disk.dirs), b, now, fault);
              r == e.result && trace == old(trace) + e.events && disk.files == e.files && disk.dirs == e.dirs
    {
      var created := CreateThumbnailPixbuf(filepath, disk.files, b);
      if created.Raised? {
        return Raised(created.error);
      }
      var pixbuf := created.value.pixbuf;
      trace := trace + [Finished(filepath, pixbuf)];
      if pixbuf.Some? && storeOnDisk {
        var thumbpath := PathToThumbpath(filepath, b);
        trace := trace + [SaveAttempted(thumbpath)];
        var _ := SaveThumbnail(pixbuf.value, thumbpath, created.value.textData.value, disk, b, now, fault);
      }
      return Done(pixbuf);
    }

    /**
     * `thumbnail(filepath, mt)`: refresh the size from the preference when it
     * was not given, answer from the cache when the stored thumbnail is valid,
     * and otherwise create one, here or (mt) on a background thread.
     */
    method Thumbnail(filepath: string, mt: bool, prefs: Prefs, disk: Disk, b: Backend, now: int, fault: SaveFault)
      returns (r: Outcome<Option<Pixbuf>>)
      modifies this`width, this`height, this`trace, disk
      ensures defaultSizes ==> width == prefs.thumbnailSize && height == prefs.thumbnailSize
      ensures !defaultSizes ==> width == old(width) && height == old(height)
      ensures match ThumbnailExists(filepath, old(disk.files), b)
              case Raised(e) =>
                r == Raised(e) && trace == old(trace)
                && disk.files == old(disk.files) && disk.dirs == old(disk.dirs)
              case Done(true) =>
                var cached := old(disk.files)[PathToThumbpath(filepath, b)].content.image;
                r == Done(Some(cached)) && trace == old(trace) + [Finished(filepath, Some(cached))]
                && disk.files == old(disk.files) && disk.dirs == old(disk.dirs)
              case Done(false) =>
                if mt then
                  r == Done(None) && trace == old(trace) + [Spawned(filepath)]
                  && disk.files == old(disk.files) && disk.dirs == old(disk.dirs)
                else
                  var e := CreateEffect(filepath, old(disk.files), old(disk.dirs), b, now, fault);
                  r == e.result && trace == old(trace) + e.events && disk.files == e.files && disk.dirs == e.dirs
    {
      if defaultSizes {
        width := prefs.thumbnailSize;
        height := prefs.thumbnailSize;
      }
      var cached := ThumbnailExists(filepath, disk.files, b);
      if cached.Raised? {
        return Raised(cached.error);
      }
      if cached.value {
        var thumbpath := PathToThumbpath(filepath, b);
        var pixbuf := Some(disk.files[thumbpath].content.image);
        trace := trace + [Finished(filepath, pixbuf)];
        return Done(pixbuf);
      } else if mt {
        trace := trace + [Spawned(filepath)];
        return Done(None);
      } else {
        r := CreateThumbnail(filepath, disk, b, now, fault);
      }
    }

    /** `delete(filepath)`: remove the thumb file if there is one; a failed removal is only logged. */
    method Delete(filepath: string, disk: Disk, b: Backend, removeFails: bool)
      modifies disk
      ensures disk.files == AfterDelete(old(disk.files), PathToThumbpath(filepath, b), removeFails)
      ensures disk.dirs == old(disk.dirs)
    {
      var thumbpath := PathToThumbpath(filepath, b);
      if thumbpath in disk.files && !removeFails {
        disk.files := disk.files - {thumbpath};
      }
    }
  }
}
