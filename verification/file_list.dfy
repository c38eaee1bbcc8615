/**
 * The reorderable list of chosen files shared by the merge page
 * (src/app/tools/merge-pdf/page.tsx) and the image-to-PDF page
 * (src/app/tools/jpg-to-pdf/page.tsx): files are dropped onto the end,
 * removed by position, moved one place up or down, and the whole list is
 * handed on only when it is not empty.
 */
module FileLists {
  import opened Wrappers

  /** `prev.filter((_, i) => i !== index)`. */
  function Without<T>(s: seq<T>, index: int): (r: seq<T>)
    ensures 0 <= index < |s| ==> r == s[..index] + s[index + 1..]
    ensures !(0 <= index < |s|) ==> r == s
  {
    if s == [] then []
    else
      var rest := Without(s[1..], index - 1);
      assert 0 < index <= |s[1..]| ==> s[1..][..index - 1] == s[1..index];
      assert 0 < index <= |s[1..]| ==> s[1..][index..] == s[index + 1..];
      if index == 0 then rest else [s[0]] + rest
  }

  /** The index a move targets. */
  function Neighbour(index: int, up: bool): int {
    if up then index - 1 else index + 1
  }

  /** The first element cannot move up and the last cannot move down. */
  predicate AtEnd(length: int, index: int, up: bool) {
    (up && index == 0) || (!up && index == length - 1)
  }

  /** `s` with positions `i` and `j` exchanged. */
  function Swap<T>(s: seq<T>, i: int, j: int): (r: seq<T>)
    requires 0 <= i < |s| && 0 <= j < |s|
    ensures |r| == |s| && r[i] == s[j] && r[j] == s[i]
    ensures forall k :: 0 <= k < |s| && k != i && k != j ==> r[k] == s[k]
  {
    s[i := s[j]][j := s[i]]
  }

  /** What `moveFile` leaves: the list itself at an end, otherwise the element swapped with its neighbour. */
  function Moved<T>(s: seq<T>, index: int, up: bool): seq<T>
    requires 0 <= index < |s|
  {
    if AtEnd(|s|, index, up) then s else Swap(s, index, Neighbour(index, up))
  }

  /** A move only reorders: the same elements, as often as before. */
  lemma MovedPermutes<T>(s: seq<T>, index: int, up: bool)
    requires 0 <= index < |s|
    ensures multiset(Moved(s, index, up)) == multiset(s)
  {
    if !AtEnd(|s|, index, up) {
      var j := Neighbour(index, up);
      calc {
        multiset(Swap(s, index, j));
        multiset(s[index := s[j]][j := s[index]]);
        multiset(s[index := s[j]]) - multiset{s[index := s[j]][j]} + multiset{s[index]};
        { assert s[index := s[j]][j] == s[j]; }
        multiset(s) - multiset{s[index]} + multiset{s[j]} - multiset{s[j]} + multiset{s[index]};
        multiset(s);
      }
    }
  }

  /** Moving an element up and then down again from where it went restores the list. */
  lemma UpThenDown<T>(s: seq<T>, index: int)
    requires 0 < index < |s|
    ensures Moved(Moved(s, index, true), index - 1, false) == s
  {
    var t := Moved(s, index, true);
    assert !AtEnd(|t|, index - 1, false);
    assert Moved(t, index - 1, false) == Swap(t, index - 1, index);
    assert forall k :: 0 <= k < |s| ==> Swap(t, index - 1, index)[k] == s[k];
  }

  /** The list of a page's chosen files. */
  class FileList<T> {
    var files: seq<T>

    constructor ()
      ensures files == []
    {
      files := [];
    }

    /** `handleDrop`: the new files go after the existing ones, in their own order. */
    method Drop(newFiles: seq<T>)
      modifies this
      ensures files == old(files) + newFiles
    {
      files := files + newFiles;
    }

    /** `removeFile`: drops the file at `index` and keeps the rest in order. */
    method Remove(index: int)
      modifies this
      ensures files == Without(old(files), index)
    {
      files := Without(files, index);
    }

    /** `moveFile`: swaps two slots of a copy of the list, unless the file is already at that end. */
    method Move(index: int, up: bool)
      requires 0 <= index < |files|
      modifies this
      ensures files == Moved(old(files), index, up)
    {
      if AtEnd(|files|, index, up) {
        return;
      }
      var current := files;
      var newFiles := new T[|current|](i requires 0 <= i < |current| => current[i]);
      var newIndex := Neighbour(index, up);
      newFiles[index], newFiles[newIndex] := newFiles[newIndex], newFiles[index];
      files := newFiles[..];
    }

    /** The guard of `handleMerge` and `handleConvert`: the list is handed on only when it has files. */
    method Submit() returns (batch: Option<seq<T>>)
      ensures batch.None? <==> files == []
      ensures batch.Some? ==> batch.value == files
    {
      if |files| == 0 {
        return None;
      }
      return Some(files);
    }
  }
}
