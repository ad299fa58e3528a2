/**
 * One bookmark (`bookmark_menu_item._Bookmark`) as a value: its fields, its
 * menu label, its identity (path and page only), its pickled form, its copy
 * and what activating it asks the file handler or the window to do.
 *
 * The window and the file handler are references the bookmark only carries
 * along; they are modelled as opaque handles. The date is kept as the epoch
 * it was built from.
 */
module BookmarkMenuItem {
  import opened Text

  type Handle = nat

  datatype Bookmark = Bookmark(
    window: Handle,
    fileHandler: Handle,
    name: string,
    path: string,
    page: int,
    numpages: int,
    archiveType: Option<int>,
    dateAdded: int)

  /** What `__eq__` may be compared against: another bookmark or anything else. */
  datatype Object = BookmarkItem(bookmark: Bookmark) | OtherObject

  /** The tuple `pack` returns: name, path, page, numpages, archive type, timestamp. */
  type Packed = (string, string, int, int, Option<int>, int)

  /** `_Bookmark(window, file_handler, name, path, page, numpages, archive_type, epoch)`. */
  function MakeBookmark(window: Handle, fileHandler: Handle, name: string, path: string, page: int,
                        numpages: int, archiveType: Option<int>, epoch: int): (b: Bookmark)
    ensures b.name == name && b.path == path && b.page == page && b.numpages == numpages
    ensures b.archiveType == archiveType && b.dateAdded == epoch
    ensures b.window == window && b.fileHandler == fileHandler
  {
    Bookmark(window, fileHandler, name, path, page, numpages, archiveType, epoch)
  }

  /** `str(bookmark)`, the menu label: `{name}, ({page} / {numpages})`. */
  function Label(b: Bookmark): string {
    b.name + ", (" + IntToString(b.page) + " / " + IntToString(b.numpages) + ")"
  }

  predicate SamePath(b: Bookmark, path: string) {
    path == b.path
  }

  predicate SamePage(b: Bookmark, page: int) {
    page == b.page
  }

  /** `__eq__`: equal to another bookmark with the same path and page, never to anything else. */
  predicate Equals(b: Bookmark, other: Object) {
    match other
    case BookmarkItem(o) => b.path == o.path && b.page == o.page
    case OtherObject => false
  }

  // ---------------------------------------------------------------------
  // Hashing

  /** The modulus of CPython's numeric hash on 64-bit builds, 2**61 - 1. */
  const HashModulus: int := 0x1FFF_FFFF_FFFF_FFFF

  /** A Python hash value in 64-bit two's complement. */
  function ToWord(h: int): bv64
    requires -0x8000_0000_0000_0000 <= h < 0x8000_0000_0000_0000
  {
    if h >= 0 then h as bv64 else (0x1_0000_0000_0000_0000 + h) as bv64
  }

  /** CPython's `hash(n)` for an int: the residue modulo 2**61 - 1 with the sign of n, and -2 in place of -1. */
  function HashInt(n: int): (h: int)
    ensures -HashModulus < h < HashModulus
  {
    var m := (if n < 0 then -n else n) % HashModulus;
    var signed := if n < 0 then -m else m;
    if signed == -1 then -2 else signed
  }

  /**
   * `__hash__`: the bitwise or of the path's hash and the page's hash. String
   * hashing is salted per process and is a parameter.
   */
  function Hash(b: Bookmark, hashStr: string -> bv64): bv64 {
    hashStr(b.path) | ToWord(HashInt(b.page))
  }

  // ---------------------------------------------------------------------
  // Copying and pickling

  /** `pack`: everything needed to rebuild the bookmark except the window and the file handler. */
  function Pack(b: Bookmark): Packed {
    (b.name, b.path, b.page, b.numpages, b.archiveType, b.dateAdded)
  }

  /** Rebuilds a bookmark from a packed tuple, as the bookmark store does on loading. */
  function Unpack(window: Handle, fileHandler: Handle, p: Packed): Bookmark {
    MakeBookmark(window, fileHandler, p.0, p.1, p.2, p.3, p.4, p.5)
  }

  /** `clone`: a new item built from the same references and values. */
  function Clone(b: Bookmark): Bookmark {
    MakeBookmark(b.window, b.fileHandler, b.name, b.path, b.page, b.numpages, b.archiveType, b.dateAdded)
  }

  // ---------------------------------------------------------------------
  // Activation

  datatype Action = OpenFile(path: string, page: int) | SetPage(page: int)

  /**
   * `_load`: open the bookmarked file at its page unless it is the file
   * currently open (`basePath`, None when no file is open), in which case
   * only the page changes.
   */
  function Load(b: Bookmark, basePath: Option<string>): Action {
    if basePath != Some(b.path) then OpenFile(b.path, b.page) else SetPage(b.page)
  }

  // ---------------------------------------------------------------------
  // Lemmas

  /** Bookmark equality is an equivalence on bookmarks. */
  lemma EqualsIsEquivalence(a: Bookmark, b: Bookmark, c: Bookmark)
    ensures Equals(a, BookmarkItem(a))
    ensures Equals(a, BookmarkItem(b)) ==> Equals(b, BookmarkItem(a))
    ensures Equals(a, BookmarkItem(b)) && Equals(b, BookmarkItem(c)) ==> Equals(a, BookmarkItem(c))
    ensures !Equals(a, OtherObject)
  {
  }

  /** Equality is exactly "same path and same page". */
  lemma EqualsIsSamePathAndPage(a: Bookmark, b: Bookmark)
    ensures Equals(a, BookmarkItem(b)) <==> SamePath(a, b.path) && SamePage(a, b.page)
  {
  }

  /** Equal bookmarks hash alike, whatever the string hash. */
  lemma HashAgreesWithEquals(a: Bookmark, b: Bookmark, hashStr: string -> bv64)
    requires Equals(a, BookmarkItem(b))
    ensures Hash(a, hashStr) == Hash(b, hashStr)
  {
  }

  /** A bookmark rebuilt from `pack` with the same references is the same bookmark. */
  lemma PackRoundTrip(b: Bookmark)
    ensures Unpack(b.window, b.fileHandler, Pack(b)) == b
    ensures forall w: Handle, f: Handle :: Equals(Unpack(w, f, Pack(b)), BookmarkItem(b))
  {
  }

  /** A clone carries every field over, so it equals the original and loads the same way. */
  lemma CloneIsEqual(b: Bookmark, basePath: Option<string>, hashStr: string -> bv64)
    ensures Clone(b) == b
    ensures Equals(Clone(b), BookmarkItem(b)) && Equals(b, BookmarkItem(Clone(b)))
    ensures Label(Clone(b)) == Label(b) && Hash(Clone(b), hashStr) == Hash(b, hashStr)
    ensures Load(Clone(b), basePath) == Load(b, basePath)
  {
  }

  /** Activation always targets the bookmarked page, and opens a file only when another one (or none) is open. */
  lemma LoadTargetsBookmark(b: Bookmark, basePath: Option<string>)
    ensures Load(b, basePath).page == b.page
    ensures Load(b, basePath).OpenFile? <==> basePath != Some(b.path)
    ensures Load(b, basePath).OpenFile? ==> Load(b, basePath).path == b.path
  {
  }

  lemma SplitAtLastMark(x1: string, t1: string, x2: string, t2: string, mark: char)
    requires mark !in t1 && mark !in t2
    requires x1 + [mark] + t1 == x2 + [mark] + t2
    ensures x1 == x2 && t1 == t2
  {
    var s := x1 + [mark] + t1;
    RFindAfterLast(x1, t1, mark);
    RFindAfterLast(x2, t2, mark);
    assert t1 == s[|x1| + 1..] == t2;
    assert x1 == s[..|x1|] == x2;
  }

  /**
   * The menu label determines the name, the page and the page count: the
   * numbers contain neither spaces nor parentheses, so the label can be read
   * back from its end whatever the name contains.
   */
  lemma LabelDeterminesFields(a: Bookmark, b: Bookmark)
    ensures Label(a) == Label(b) <==> a.name == b.name && a.page == b.page && a.numpages == b.numpages
  {
    if Label(a) == Label(b) {
      var pa, na := IntToString(a.page), IntToString(a.numpages);
      var pb, nb := IntToString(b.page), IntToString(b.numpages);
      IntToStringHasNoSeparators(a.page);
      IntToStringHasNoSeparators(a.numpages);
      IntToStringHasNoSeparators(b.page);
      IntToStringHasNoSeparators(b.numpages);
      var la, lb := Label(a), Label(b);
      assert la[..|la| - 1] == (a.name + ", (" + pa + " /") + [' '] + na;
      assert lb[..|lb| - 1] == (b.name + ", (" + pb + " /") + [' '] + nb;
      SplitAtLastMark(a.name + ", (" + pa + " /", na, b.name + ", (" + pb + " /", nb, ' ');
      var ha, hb := a.name + ", (" + pa + " /", b.name + ", (" + pb + " /";
      assert ha[..|ha| - 2] == (a.name + ",") + [' '] + ("(" + pa);
      assert hb[..|hb| - 2] == (b.name + ",") + [' '] + ("(" + pb);
      assert ha[..|ha| - 2] == (a.name + ", ") + ['('] + pa;
      assert hb[..|hb| - 2] == (b.name + ", ") + ['('] + pb;
      SplitAtLastMark(a.name + ", ", pa, b.name + ", ", pb, '(');
      assert a.name == (a.name + ", ")[..|a.name|];
      assert b.name == (b.name + ", ")[..|b.name|];
      IntToStringInjective(a.page, b.page);
      IntToStringInjective(a.numpages, b.numpages);
    }
  }
}
