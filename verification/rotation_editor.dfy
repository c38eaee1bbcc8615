/**
 * The rotation page (src/app/tools/rotate-pdf/client.tsx): a record from
 * page index to a running rotation in degrees, changed one page at a time or
 * for every page, handed to `rotatePDF` on save. A page without an entry is
 * at 0.
 */
module RotationEditor {
  import opened Wrappers
  import Documents

  /** The angle recorded for page `i`, 0 when it has none (`prev[i] || 0`). */
  function Entry(m: map<int, int>, i: int): int {
    Documents.Delta(m, i)
  }

  /** `rotatePage`: the entry of `pageIndex` becomes its old value plus `degrees`. */
  function PageTurned(m: map<int, int>, pageIndex: int, degrees: int): (r: map<int, int>)
    ensures r.Keys == m.Keys + {pageIndex}
    ensures Entry(r, pageIndex) == Entry(m, pageIndex) + degrees
    ensures forall i :: i != pageIndex && i in m ==> r[i] == m[i]
  {
    m[pageIndex := Entry(m, pageIndex) + degrees]
  }

  /** The page indices 0..count-1. */
  function Pages(count: int): (r: set<int>)
    ensures forall i :: i in r <==> 0 <= i < count
  {
    if count <= 0 then {} else Pages(count - 1) + {count - 1}
  }

  /** `rotateAll`: every page 0..count-1 gains `degrees`; entries of other indices are kept. */
  function AllTurned(m: map<int, int>, count: int, degrees: int): (r: map<int, int>)
    ensures r.Keys == m.Keys + Pages(count)
    ensures forall i :: 0 <= i < count ==> r[i] == Entry(m, i) + degrees
    ensures forall i :: i in m && !(0 <= i < count) ==> r[i] == m[i]
  {
    map i | i in m.Keys + Pages(count) :: if 0 <= i < count then Entry(m, i) + degrees else m[i]
  }

  /** Turning a page back by the same angle gives the document the same rotation as before. */
  lemma TurnBackRestores(pages: seq<Documents.Page>, m: map<int, int>, pageIndex: int, degrees: int)
    ensures Documents.Rotated(pages, PageTurned(PageTurned(m, pageIndex, -degrees), pageIndex, degrees)) ==
      Documents.Rotated(pages, m)
  {
    var m2 := PageTurned(PageTurned(m, pageIndex, -degrees), pageIndex, degrees);
    assert forall i :: Entry(m2, i) == Entry(m, i);
    var a, b := Documents.Rotated(pages, m2), Documents.Rotated(pages, m);
    assert forall i :: 0 <= i < |pages| ==> a[i] == b[i];
  }

  predicate QuarterTurns(m: map<int, int>) {
    forall i :: i in m ==> Documents.QuarterTurn(m[i])
  }

  /** A turn by a multiple of 90 keeps every entry a multiple of 90, one page or all of them. */
  lemma TurnsKeepQuarterTurns(m: map<int, int>, pageIndex: int, count: int, degrees: int)
    requires QuarterTurns(m) && Documents.QuarterTurn(degrees)
    ensures QuarterTurns(PageTurned(m, pageIndex, degrees))
    ensures QuarterTurns(AllTurned(m, count, degrees))
  {
    var turned, all := PageTurned(m, pageIndex, degrees), AllTurned(m, count, degrees);
    forall i | i in turned ensures Documents.QuarterTurn(turned[i]) {
      if i == pageIndex {
        Documents.QuarterSum(Entry(m, i), degrees);
      }
    }
    forall i | i in all ensures Documents.QuarterTurn(all[i]) {
      if 0 <= i < count {
        Documents.QuarterSum(Entry(m, i), degrees);
      }
    }
  }

  /** Turning one more page: the loop of `rotateAll` builds `AllTurned` page by page. */
  lemma AllTurnedStep(m: map<int, int>, i: int, degrees: int)
    requires 0 <= i
    ensures AllTurned(m, i + 1, degrees) == AllTurned(m, i, degrees)[i := Entry(AllTurned(m, i, degrees), i) + degrees]
  {
    var a, b := AllTurned(m, i + 1, degrees), AllTurned(m, i, degrees)[i := Entry(AllTurned(m, i, degrees), i) + degrees];
    assert Entry(AllTurned(m, i, degrees), i) == Entry(m, i);
    assert a.Keys == b.Keys;
    assert forall k :: k in a ==> a[k] == b[k];
  }

  class RotationPage {
    var hasFile: bool
    var pageCount: int
    var rotations: map<int, int>

    constructor ()
      ensures !hasFile && pageCount == 0 && rotations == map[]
    {
      hasFile, pageCount, rotations := false, 0, map[];
    }

    /** Entries are multiples of 90, as the `/Rotate` entry of a page requires. */
    predicate Valid()
      reads this
    {
      QuarterTurns(rotations)
    }

    /**
     * `handleDrop`: the record is cleared at once; the page count is replaced
     * only if the document loads (`count` is `None` when it does not).
     */
    method Load(count: Option<int>)
      modifies this
      ensures hasFile && rotations == map[]
      ensures pageCount == if count.Some? then count.value else old(pageCount)
      ensures Valid()
    {
      hasFile := true;
      rotations := map[];
      if count.Some? {
        pageCount := count.value;
      }
    }

    /** The "clear" button: no file, no pages, no rotations. */
    method Clear()
      modifies this
      ensures !hasFile && pageCount == 0 && rotations == map[]
      ensures Valid()
    {
      hasFile, pageCount, rotations := false, 0, map[];
    }

    /** `rotatePage`; the buttons pass 90 or -90. */
    method RotatePage(pageIndex: int, degrees: int)
      requires Valid() && (degrees == 90 || degrees == -90)
      modifies this
      ensures rotations == PageTurned(old(rotations), pageIndex, degrees)
      ensures hasFile == old(hasFile) && pageCount == old(pageCount)
      ensures Valid()
    {
      rotations := PageTurned(rotations, pageIndex, degrees);
      TurnsKeepQuarterTurns(old(rotations), pageIndex, pageCount, degrees);
    }

    /** `rotateAll`: copies the record, then adds `degrees` to every page's entry in a loop. */
    method RotateAll(degrees: int)
      requires Valid() && (degrees == 90 || degrees == -90)
      modifies this
      ensures rotations == AllTurned(old(rotations), pageCount, degrees)
      ensures hasFile == old(hasFile) && pageCount == old(pageCount)
      ensures Valid()
    {
      var previous, count := rotations, pageCount;
      var newRotations := previous;
      var i := 0;
      assert newRotations == AllTurned(previous, 0, degrees);
      while i < count
        invariant 0 <= i && (i <= count || i == 0)
        invariant newRotations == AllTurned(previous, i, degrees)
        invariant unchanged(this)
      {
        AllTurnedStep(previous, i, degrees);
        newRotations := newRotations[i := Entry(newRotations, i) + degrees];
        i := i + 1;
      }
      TurnsKeepQuarterTurns(previous, 0, count, degrees);
      rotations := newRotations;
    }

    /** `handleSave`: the record goes to `rotatePDF` when a file is loaded. */
    method Save() returns (request: Option<map<int, int>>)
      ensures request.Some? <==> hasFile
      ensures request.Some? ==> request.value == rotations
    {
      if !hasFile {
        return None;
      }
      return Some(rotations);
    }
  }
}
