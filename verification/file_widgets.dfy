/** `DeletableFileWidget` (a file input paired with a "delete" checkbox) and
    `ListOfFilesWidget` (a list widget whose items are deletable files). */
module FileWidgets {
  import opened FormData

  /** The sub-widgets of a deletable file widget, in order. */
  datatype Part = FilePart | DeleteBox

  const DeletableParts: seq<Part> := [FilePart, DeleteBox]

  /** A value handed to one part: the stored file, or the box's state. */
  datatype PartValue<T> = Upload(file: T) | Ticked(on: bool)

  predicate Fits<T>(p: Part, v: PartValue<T>) {
    match p
    case FilePart => v.Upload?
    case DeleteBox => v.Ticked?
  }

  /** `decompress`: one value per part, in the parts' order; the file part
      gets the stored value unchanged and the delete box starts unticked. */
  function Decompress<T>(value: T): (r: seq<PartValue<T>>)
    ensures |r| == |DeletableParts|
    ensures forall j :: 0 <= j < |r| ==> Fits(DeletableParts[j], r[j])
    ensures forall j :: 0 <= j < |r| && r[j].Upload? ==> r[j].file == value
    ensures forall j :: 0 <= j < |r| && r[j].Ticked? ==> !r[j].on
  {
    [Upload(value), Ticked(false)]
  }

  /** `DeletableFileWidget.value_from_datadict`: `None` exactly when the file
      part `name_0` was submitted in neither `data` nor `files`; otherwise
      whatever the pair of parts reads back (`multi`, the framework's
      multi-widget decoding). */
  function DeletableDecode<D, F, M>(multi: (map<Name, D>, map<Name, F>, Name) -> M,
                                    data: map<Name, D>, files: map<Name, F>, name: Name): (r: Option<M>)
    ensures r.None? <==> !Present(data, files, Sub(name, Item, 0))
    ensures r.Some? ==> r.value == multi(data, files, name)
  {
    var fileName := Sub(name, Item, 0);
    if fileName !in data && fileName !in files then None
    else Some(multi(data, files, name))
  }

  /** The scan of `ListOfFilesWidget.value_from_datadict` from index `i` on:
      the item values up to, not including, the first `None`. */
  function ListOfFilesFrom<D, F, M>(multi: (map<Name, D>, map<Name, F>, Name) -> M,
                                    data: map<Name, D>, files: map<Name, F>, name: Name, i: nat): (r: seq<M>)
    ensures |r| == Gap(Submitted(data, files), FirstParts(name), i) - i
    ensures forall k :: 0 <= k < |r| ==> DeletableDecode(multi, data, files, Sub(name, Item, i + k)) == Some(r[k])
    ensures DeletableDecode(multi, data, files, Sub(name, Item, i + |r|)).None?
    decreases Remaining(Submitted(data, files), FirstParts(name), i)
  {
    match DeletableDecode(multi, data, files, Sub(name, Item, i))
    case None => []
    case Some(v) =>
      RemainingShrinks(Submitted(data, files), FirstParts(name), i);
      var rest := ListOfFilesFrom(multi, data, files, name, i + 1);
      [v] + rest
  }

  /** `ListOfFilesWidget.value_from_datadict`: the longest run of items from
      index 0 whose deletable-file value is not `None`, so the result holds
      no `None`, and the item after the run reads `None`. */
  function ListOfFiles<D, F, M>(multi: (map<Name, D>, map<Name, F>, Name) -> M,
                                data: map<Name, D>, files: map<Name, F>, name: Name): (r: seq<M>)
    ensures |r| <= |data| + |files|
    ensures forall k :: 0 <= k < |r| ==> DeletableDecode(multi, data, files, Sub(name, Item, k)) == Some(r[k])
    ensures DeletableDecode(multi, data, files, Sub(name, Item, |r|)).None?
  {
    GapWithinSubmission(Submitted(data, files), FirstParts(name));
    ListOfFilesFrom(multi, data, files, name, 0)
  }

  /** Stopping at the first `None` makes the result a maximal prefix: any
      list whose every item reads back non-`None` at its index is a prefix
      of the decoded list. */
  lemma ListOfFilesIsMaximal<D, F, M>(multi: (map<Name, D>, map<Name, F>, Name) -> M,
                                      data: map<Name, D>, files: map<Name, F>, name: Name, xs: seq<M>)
    requires forall k :: 0 <= k < |xs| ==> DeletableDecode(multi, data, files, Sub(name, Item, k)) == Some(xs[k])
    ensures xs <= ListOfFiles(multi, data, files, name)
  {
    var r := ListOfFiles(multi, data, files, name);
    assert |xs| <= |r|;
    assert forall k :: 0 <= k < |xs| ==> xs[k] == r[k];
  }
}
