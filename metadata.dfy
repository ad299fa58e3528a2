/**
 * Per-book metadata (`metadata.py`): which pages may not be shown as half of
 * a double-page spread, where the body of the book starts, and the labels
 * shown for front-matter pages (lower-case Roman numerals) and body pages
 * (decimal numbers counted from the body start).
 *
 * Reading the INI file is left out; `Metadata.LoadPageData` receives the
 * entries of the `double_pages` section already converted by `int(key)` and
 * `getboolean`, and the `body_start` value of the `page_numbers` section.
 */
module Metadata {
  import opened Text

  /** `ROMAN_NUMERALS`: the numerals for 1 to 10; any other key raises KeyError. */
  function RomanNumeral(n: int): string
    requires 1 <= n <= 10
  {
    match n
    case 1 => "i"
    case 2 => "ii"
    case 3 => "iii"
    case 4 => "iv"
    case 5 => "v"
    case 6 => "vi"
    case 7 => "vii"
    case 8 => "viii"
    case 9 => "ix"
    case _ => "x"
  }

  /** The numerals `set_body_page_num` assigns to the pages before `upTo`. */
  function FrontMatter(upTo: int): map<int, string>
    requires upTo <= 11
  {
    map n | 1 <= n < upTo :: RomanNumeral(n)
  }

  function Min(a: int, b: int): int {
    if a <= b then a else b
  }

  /** The page data of one book. */
  class PageData {
    var doNotDisplayAsDouble: set<int>
    var pageDisplayStrings: map<int, string>
    var bodyPageNum: int

    constructor ()
      ensures doNotDisplayAsDouble == {} && pageDisplayStrings == map[] && bodyPageNum == 1
    {
      doNotDisplayAsDouble := {};
      pageDisplayStrings := map[];
      bodyPageNum := 1;
    }

    /** Back to the state of a fresh object. */
    method Clear()
      modifies this
      ensures doNotDisplayAsDouble == {} && pageDisplayStrings == map[] && bodyPageNum == 1
    {
      doNotDisplayAsDouble := {};
      pageDisplayStrings := map[];
      bodyPageNum := 1;
    }

    method AddNotDoublePage(pageNum: int)
      modifies this`doNotDisplayAsDouble
      ensures doNotDisplayAsDouble == old(doNotDisplayAsDouble) + {pageNum}
    {
      doNotDisplayAsDouble := doNotDisplayAsDouble + {pageNum};
    }

    predicate CanDisplayAsDoublePage(pageNum: int)
      reads this
    {
      pageNum !in doNotDisplayAsDouble
    }

    /**
     * `set_body_page_num`: records the body start and labels the pages before
     * it with Roman numerals. Past 10 the numeral table has no entry: the
     * Python code raises KeyError there, after labelling pages 1 to 10; `ok` is
     * false exactly in that case.
     */
    method SetBodyPageNum(pageNum: int) returns (ok: bool)
      modifies this`bodyPageNum, this`pageDisplayStrings
      ensures bodyPageNum == pageNum
      ensures ok <==> pageNum <= 11
      ensures pageDisplayStrings == old(pageDisplayStrings) + FrontMatter(Min(pageNum, 11))
    {
      bodyPageNum := pageNum;
      if bodyPageNum == 1 {
        assert FrontMatter(1) == map[];
        return true;
      }
      var front := 1;
      while front < bodyPageNum
        invariant 1 <= front <= 11
        invariant front <= bodyPageNum || front == 1
        invariant bodyPageNum == pageNum
        invariant pageDisplayStrings == old(pageDisplayStrings) + FrontMatter(front)
        decreases bodyPageNum - front
      {
        if front > 10 {
          return false;
        }
        assert FrontMatter(front + 1) == FrontMatter(front)[front := RomanNumeral(front)];
        pageDisplayStrings := pageDisplayStrings[front := RomanNumeral(front)];
        front := front + 1;
      }
      assert FrontMatter(front) == FrontMatter(Min(pageNum, 11)) by {
        if pageNum < 1 {
          assert FrontMatter(front) == map[] == FrontMatter(pageNum);
        }
      }
      return true;
    }

    /**
     * `get_page_display_str`: body pages count from 1 at the body start;
     * earlier pages show their stored label, and None stands for the
     * KeyError raised for a page without one.
     */
    function GetPageDisplayStr(pageNum: int): Option<string>
      reads this
    {
      if pageNum >= bodyPageNum then Some(IntToString(pageNum - bodyPageNum + 1))
      else if pageNum in pageDisplayStrings then Some(pageDisplayStrings[pageNum])
      else None
    }
  }

  // ---------------------------------------------------------------------
  // Double-page runs

  /** The loop of `get_previous_first_page_of_double_page_run`, from `pg` down to 1. */
  function ScanBack(blocked: set<int>, pg: int): int
    decreases pg
  {
    if pg < 1 then 0
    else if pg in blocked then pg + 1
    else ScanBack(blocked, pg - 1)
  }

  /**
   * The first page of the run of displayable-as-double pages that ends at
   * `pageNum`: -1 for a blocked page, 0 when the run reaches back to page 1.
   */
  function FirstOfRun(blocked: set<int>, pageNum: int): int {
    if pageNum in blocked then -1 else ScanBack(blocked, pageNum)
  }

  /** A page is the right half of a spread when it lies an odd number of pages after its run's first page. */
  predicate SecondHalf(blocked: set<int>, pageNum: int) {
    var first := FirstOfRun(blocked, pageNum);
    first > 0 && (pageNum - first) % 2 == 1
  }

  method GetPreviousFirstPageOfDoublePageRun(pageData: PageData, pageNum: int) returns (r: int)
    ensures r == FirstOfRun(pageData.doNotDisplayAsDouble, pageNum)
  {
    if !pageData.CanDisplayAsDoublePage(pageNum) {
      return -1;
    }
    var pg := pageNum;
    while pg >= 1
      invariant ScanBack(pageData.doNotDisplayAsDouble, pg) == ScanBack(pageData.doNotDisplayAsDouble, pageNum)
      decreases pg
    {
      if !pageData.CanDisplayAsDoublePage(pg) {
        return pg + 1;
      }
      pg := pg - 1;
    }
    return 0;
  }

  /**
   * `is_page_second_part_of_double`: decided by the parity of the run's
   * first page, which amounts to the offset from that page being odd.
   */
  method IsPageSecondPartOfDouble(pageData: PageData, pageNum: int) returns (r: bool)
    ensures r == SecondHalf(pageData.doNotDisplayAsDouble, pageNum)
  {
    var firstOfDoubleRun := GetPreviousFirstPageOfDoublePageRun(pageData, pageNum);
    if firstOfDoubleRun <= 0 {
      return false;
    }
    var isFirstOdd := firstOfDoubleRun % 2 != 0;
    if isFirstOdd {
      return pageNum % 2 == 0;
    }
    return pageNum % 2 != 0;
  }

  // ---------------------------------------------------------------------
  // The metadata object

  class Metadata {
    const pageData: PageData

    constructor ()
      ensures fresh(pageData)
      ensures pageData.doNotDisplayAsDouble == {} && pageData.pageDisplayStrings == map[] && pageData.bodyPageNum == 1
    {
      pageData := new PageData();
    }

    method Clear()
      modifies pageData
      ensures pageData.doNotDisplayAsDouble == {} && pageData.pageDisplayStrings == map[] && pageData.bodyPageNum == 1
    {
      pageData.Clear();
    }

    /**
     * `load_page_data`: start from cleared data, block every page whose
     * `double_pages` entry is false, then set the body start (1 when absent).
     * `ok` is false when that raises KeyError.
     */
    method LoadPageData(doublePages: seq<(int, bool)>, bodyStart: Option<int>) returns (ok: bool)
      modifies pageData
      ensures pageData.doNotDisplayAsDouble == NotDouble(doublePages)
      ensures pageData.bodyPageNum == bodyStart.GetOr(1)
      ensures ok <==> bodyStart.GetOr(1) <= 11
      ensures pageData.pageDisplayStrings == FrontMatter(Min(bodyStart.GetOr(1), 11))
    {
      pageData.Clear();
      var i := 0;
      while i < |doublePages|
        invariant 0 <= i <= |doublePages|
        invariant pageData.doNotDisplayAsDouble == NotDouble(doublePages[..i])
        invariant pageData.pageDisplayStrings == map[] && pageData.bodyPageNum == 1
      {
        assert doublePages[..i + 1][..i] == doublePages[..i];
        if !doublePages[i].1 {
          pageData.AddNotDoublePage(doublePages[i].0);
        }
        i := i + 1;
      }
      assert doublePages[..i] == doublePages;
      ok := pageData.SetBodyPageNum(bodyStart.GetOr(1));
    }
  }

  /** The pages of a `double_pages` section whose entry is false. */
  function NotDouble(entries: seq<(int, bool)>): set<int>
    decreases |entries|
  {
    if |entries| == 0 then {}
    else
      var last := entries[|entries| - 1];
      NotDouble(entries[..|entries| - 1]) + (if last.1 then {} else {last.0})
  }

  // ---------------------------------------------------------------------
  // Lemmas

  /** Exactly the pages with a false entry are blocked; `add_not_double_page` is never undone by a later true entry. */
  lemma {:induction false} NotDoubleMembers(entries: seq<(int, bool)>, p: int)
    ensures p in NotDouble(entries) <==> exists i :: 0 <= i < |entries| && entries[i] == (p, false)
    decreases |entries|
  {
    if |entries| > 0 {
      var init := entries[..|entries| - 1];
      NotDoubleMembers(init, p);
      if p in NotDouble(init) {
        var i :| 0 <= i < |init| && init[i] == (p, false);
        assert entries[i] == init[i];
      }
      if exists i :: 0 <= i < |entries| && entries[i] == (p, false) {
        var i :| 0 <= i < |entries| && entries[i] == (p, false);
        if i < |init| {
          assert init[i] == entries[i];
        }
      }
    }
  }

  /** The scan finds the nearest blocked page below, or reports that there is none. */
  lemma {:induction false} ScanBackFindsBlocked(blocked: set<int>, pg: int)
    ensures ScanBack(blocked, pg) >= 0
    ensures ScanBack(blocked, pg) == 0 <==> forall q :: 1 <= q <= pg ==> q !in blocked
    ensures ScanBack(blocked, pg) > 0 ==>
              var r := ScanBack(blocked, pg);
              2 <= r <= pg + 1 && r - 1 in blocked && forall q :: r <= q <= pg ==> q !in blocked
    decreases pg
  {
    if pg >= 1 && pg !in blocked {
      ScanBackFindsBlocked(blocked, pg - 1);
    }
  }

  /**
   * `get_previous_first_page_of_double_page_run` returns -1 exactly for a
   * blocked page; otherwise the page after the nearest blocked page below,
   * with every page from there up to `pageNum` displayable, or 0 when no
   * page from 1 to `pageNum` is blocked.
   */
  lemma FirstOfRunCharacterized(blocked: set<int>, pageNum: int)
    ensures FirstOfRun(blocked, pageNum) == -1 <==> pageNum in blocked
    ensures FirstOfRun(blocked, pageNum) == 0 <==>
              pageNum !in blocked && forall q :: 1 <= q <= pageNum ==> q !in blocked
    ensures FirstOfRun(blocked, pageNum) > 0 ==>
              var r := FirstOfRun(blocked, pageNum);
              2 <= r <= pageNum && r - 1 in blocked && forall q :: r <= q <= pageNum ==> q !in blocked
  {
    ScanBackFindsBlocked(blocked, pageNum);
  }

  /** The first page of a run is a left half. */
  lemma RunStartIsFirstHalf(blocked: set<int>, pageNum: int)
    requires FirstOfRun(blocked, pageNum) > 0
    ensures FirstOfRun(blocked, FirstOfRun(blocked, pageNum)) == FirstOfRun(blocked, pageNum)
    ensures !SecondHalf(blocked, FirstOfRun(blocked, pageNum))
  {
    var r := FirstOfRun(blocked, pageNum);
    FirstOfRunCharacterized(blocked, pageNum);
    assert ScanBack(blocked, r) == ScanBack(blocked, r - 1) == r;
  }

  /** Within a run the pages alternate between left and right halves. */
  lemma RunAlternates(blocked: set<int>, pageNum: int)
    requires pageNum !in blocked && pageNum + 1 !in blocked
    ensures FirstOfRun(blocked, pageNum + 1) == FirstOfRun(blocked, pageNum)
    ensures FirstOfRun(blocked, pageNum) > 0 ==>
              SecondHalf(blocked, pageNum + 1) == !SecondHalf(blocked, pageNum)
  {
  }

  /** With no blocked page before it, no page is a right half: MComix pairs pages only after a blocked one. */
  lemma NoBlockNoSecondHalf(blocked: set<int>, pageNum: int)
    requires pageNum !in blocked && forall q :: 1 <= q <= pageNum ==> q !in blocked
    ensures FirstOfRun(blocked, pageNum) == 0
    ensures !SecondHalf(blocked, pageNum)
  {
    FirstOfRunCharacterized(blocked, pageNum);
  }

  // ---------------------------------------------------------------------
  // Display strings

  lemma RomanNumeralShape(n: int)
    requires 1 <= n <= 10
    ensures |RomanNumeral(n)| > 0 && !IsDigitChar(RomanNumeral(n)[0])
  {
  }

  lemma RomanNumeralInjective(n: int, m: int)
    requires 1 <= n <= 10 && 1 <= m <= 10
    ensures RomanNumeral(n) == RomanNumeral(m) <==> n == m
  {
  }

  /** The page where the body starts is labelled "1". */
  lemma BodyStartShowsOne(pd: PageData)
    ensures pd.GetPageDisplayStr(pd.bodyPageNum) == Some("1")
  {
    assert IntToString(1) == [DigitChar(1)];
  }

  /**
   * After `set_body_page_num(b)` on cleared data with 1 <= b <= 11, pages
   * 1 to b-1 show their Roman numeral, pages before 1 have no label, and
   * later pages count from the body start.
   */
  lemma LabelsAfterSetBody(pd: PageData, pageNum: int)
    requires 1 <= pd.bodyPageNum <= 11 && pd.pageDisplayStrings == FrontMatter(pd.bodyPageNum)
    ensures 1 <= pageNum < pd.bodyPageNum ==> pd.GetPageDisplayStr(pageNum) == Some(RomanNumeral(pageNum))
    ensures pageNum < 1 ==> pd.GetPageDisplayStr(pageNum) == None
    ensures pageNum >= pd.bodyPageNum ==>
              pd.GetPageDisplayStr(pageNum) == Some(IntToString(pageNum - pd.bodyPageNum + 1))
  {
  }

  /** Labels set up that way are distinct: no two pages of the book show the same label. */
  lemma LabelsDistinct(pd: PageData, p: int, q: int)
    requires 1 <= pd.bodyPageNum <= 11 && pd.pageDisplayStrings == FrontMatter(pd.bodyPageNum)
    requires p != q
    requires pd.GetPageDisplayStr(p).Some? && pd.GetPageDisplayStr(q).Some?
    ensures pd.GetPageDisplayStr(p) != pd.GetPageDisplayStr(q)
  {
    var b := pd.bodyPageNum;
    if p >= b && q >= b {
      IntToStringInjective(p - b + 1, q - b + 1);
    } else if p < b && q < b {
      RomanNumeralInjective(p, q);
    } else {
      var body, front := if p >= b then p else q, if p >= b then q else p;
      NatToStringDigits(body - b + 1);
      RomanNumeralShape(front);
      assert IntToString(body - b + 1)[0] != RomanNumeral(front)[0];
    }
  }
}
