/** `ListWidget`: a list value is rendered as one sub-widget per element plus
    an empty trailing one, named `name_0 … name_n`, and read back from the
    submitted data by walking those names from index 0. */
module ListWidget {
  import opened FormData
  import opened BaseContainer

  /** The Python value handed to `render`. */
  datatype ListInput<E> =
    | NoValue
    | ListValue(items: seq<E>)
    | TupleValue(items: seq<E>)
    | OtherValue

  /** The elements to render: none for `None`. */
  function Items<E>(value: ListInput<E>): seq<E> {
    match value
    case ListValue(xs) => xs
    case TupleValue(xs) => xs
    case _ => []
  }

  /** What `render` produces: the sub-widget render calls, in order, and what
      the caller's list object holds afterwards when a list was passed. */
  datatype Rendered<E> = Rendered(slots: seq<Slot<E>>, callerList: Option<seq<E>>)

  function SlotsFor<E>(name: Name, id: Option<string>, values: seq<E>): seq<Slot<E>> {
    seq(|values|, i requires 0 <= i < |values| => Slot(Sub(name, Item, i), SubId(id, Item, i), values[i]))
  }

  /** The slots a list `xs` must render to: `|xs| + 1` of them, named
      `name_0 … name_n` in order, carrying the elements and then `blank`,
      each with the id derived from the container's id. */
  ghost predicate WellRendered<E>(name: Name, id: Option<string>, xs: seq<E>, blank: E, slots: seq<Slot<E>>) {
    && |slots| == |xs| + 1
    && (forall i :: 0 <= i < |slots| ==> slots[i].name == Sub(name, Item, i) && slots[i].id == SubId(id, Item, i))
    && (forall i :: 0 <= i < |xs| ==> slots[i].value == xs[i])
    && slots[|xs|].value == blank
  }

  /** `ListWidget.render` as written; `blank` is the `''` it appends. A tuple
      passes the type guard and then fails at `.append`, and a list passed
      in gets the blank appended to it. */
  function Render<E>(name: Name, id: Option<string>, value: ListInput<E>, blank: E): (r: Result<Rendered<E>>)
    ensures value.OtherValue? ==> r == Err(WrongType(name, ListOrTuple))
    ensures value.TupleValue? ==> r == Err(MissingAttribute("append"))
    ensures value.NoValue? || value.ListValue? ==>
              r.Ok? && WellRendered(name, id, Items(value), blank, r.value.slots)
    ensures value.ListValue? ==> r.Ok? && r.value.callerList == Some(value.items + [blank])
  {
    match value
    case OtherValue => Err(WrongType(name, ListOrTuple))
    case TupleValue(_) => Err(MissingAttribute("append"))
    case NoValue => Ok(Rendered(SlotsFor(name, id, [blank]), None))
    case ListValue(xs) =>
      var extended := xs + [blank];
      Ok(Rendered(SlotsFor(name, id, extended), Some(extended)))
  }

  /** `render` as its type guard intends: tuples render like lists, and the
      blank is appended to a copy, so the caller's list is left alone. */
  function RenderFixed<E>(name: Name, id: Option<string>, value: ListInput<E>, blank: E): (r: Result<Rendered<E>>)
    ensures r.Err? <==> value.OtherValue?
    ensures r.Err? ==> r.error == WrongType(name, ListOrTuple)
    ensures r.Ok? ==> WellRendered(name, id, Items(value), blank, r.value.slots)
    ensures value.ListValue? ==> r.Ok? && r.value.callerList == Some(value.items)
  {
    match value
    case OtherValue => Err(WrongType(name, ListOrTuple))
    case NoValue => Ok(Rendered(SlotsFor(name, id, [blank]), None))
    case ListValue(xs) => Ok(Rendered(SlotsFor(name, id, xs + [blank]), Some(xs)))
    case TupleValue(xs) => Ok(Rendered(SlotsFor(name, id, xs + [blank]), None))
  }

  /** Wherever the written `render` succeeds, the corrected one renders the
      same slots. */
  lemma RenderFixedAgrees<E>(name: Name, id: Option<string>, value: ListInput<E>, blank: E)
    requires Render(name, id, value, blank).Ok?
    ensures RenderFixed(name, id, value, blank).Ok?
    ensures RenderFixed(name, id, value, blank).value.slots == Render(name, id, value, blank).value.slots
  {
  }

  /** Rendering the same list object twice: the second rendering shows the
      blank the first one left behind, so there is one slot too many. */
  lemma RenderTwiceGrows<E>(name: Name, id: Option<string>, xs: seq<E>, blank: E)
    ensures Render(name, id, ListValue(xs), blank).Ok?
    ensures var after := Render(name, id, ListValue(xs), blank).value.callerList;
            after.Some? &&
            var second := Render(name, id, ListValue(after.value), blank);
            second.Ok? && |second.value.slots| == |xs| + 2 && second.value.slots[|xs|].value == blank
  {
  }

  /** The corrected `render` can be repeated on the list it was given. */
  lemma RenderFixedIsRepeatable<E>(name: Name, id: Option<string>, xs: seq<E>, blank: E)
    ensures var first := RenderFixed(name, id, ListValue(xs), blank);
            first.Ok? && first.value.callerList.Some? &&
            RenderFixed(name, id, ListValue(first.value.callerList.value), blank) == first
  {
  }

  /** The label of a list widget targets its first rendered sub-widget. */
  lemma LabelTargetsFirstSlot<E>(name: Name, id: Option<string>, value: ListInput<E>, blank: E)
    requires !value.OtherValue?
    ensures RenderFixed(name, id, value, blank).Ok?
    ensures RenderFixed(name, id, value, blank).value.slots[0].id == IdForLabel(id)
  {
    LabelIsFirstItemId(id);
  }

  // ---------------------------------------------------------------------
  // Decoding

  /** The filter of `value_from_datadict`: a value is kept when it is not in
      EMPTY_VALUES, or when it is `None` and some file was submitted. */
  predicate Kept<V>(isEmpty: V -> bool, withFiles: bool, v: Option<V>) {
    !Empty(isEmpty, v) || (v.None? && withFiles)
  }

  /** The scan of `value_from_datadict` from index `i` on. */
  function DecodeFrom<D, F, V>(widget: Extractor<D, F, V>, isEmpty: V -> bool,
                               data: map<Name, D>, files: map<Name, F>, name: Name, i: nat): (r: seq<Option<V>>)
    ensures forall k :: 0 <= k < |r| ==> Kept(isEmpty, |files| > 0, r[k])
    decreases Remaining(Submitted(data, files), Indexed(name, Item), i)
  {
    var slot := Sub(name, Item, i);
    if slot in data || slot in files then
      RemainingShrinks(Submitted(data, files), Indexed(name, Item), i);
      var v := widget(data, files, slot);
      var rest := DecodeFrom(widget, isEmpty, data, files, name, i + 1);
      if Kept(isEmpty, |files| > 0, v) then [v] + rest else rest
    else
      []
  }

  /** The scan yields at most one value per index before the first gap. */
  lemma {:induction false} DecodeFromLength<D, F, V>(widget: Extractor<D, F, V>, isEmpty: V -> bool,
                                                     data: map<Name, D>, files: map<Name, F>, name: Name, i: nat)
    ensures |DecodeFrom(widget, isEmpty, data, files, name, i)| <= Gap(Submitted(data, files), Indexed(name, Item), i) - i
    decreases Remaining(Submitted(data, files), Indexed(name, Item), i)
  {
    var keys, f := Submitted(data, files), Indexed(name, Item);
    DecodeFromUnfold(widget, isEmpty, data, files, name, i);
    if At(f, i) in keys {
      RemainingShrinks(keys, f, i);
      DecodeFromLength(widget, isEmpty, data, files, name, i + 1);
      assert Gap(keys, f, i) == Gap(keys, f, i + 1);
    }
  }

  /** One step of the scan. */
  lemma DecodeFromUnfold<D, F, V>(widget: Extractor<D, F, V>, isEmpty: V -> bool,
                                  data: map<Name, D>, files: map<Name, F>, name: Name, i: nat)
    ensures var slot := Sub(name, Item, i);
            var v := widget(data, files, slot);
            DecodeFrom(widget, isEmpty, data, files, name, i)
            == if slot in data || slot in files
               then (if Kept(isEmpty, |files| > 0, v) then [v] else []) + DecodeFrom(widget, isEmpty, data, files, name, i + 1)
               else []
  {
  }

  /** `ListWidget.value_from_datadict`: at most one value per contiguous
      submitted index, and no empty value unless it is a `None` kept
      because files were submitted. */
  function Decode<D, F, V>(widget: Extractor<D, F, V>, isEmpty: V -> bool,
                           data: map<Name, D>, files: map<Name, F>, name: Name): (r: seq<Option<V>>)
    ensures |r| <= Gap(Submitted(data, files), Indexed(name, Item), 0) <= |data| + |files|
    ensures |files| == 0 ==> forall k :: 0 <= k < |r| ==> !Empty(isEmpty, r[k])
    ensures forall k :: 0 <= k < |r| && Empty(isEmpty, r[k]) ==> r[k].None? && |files| > 0
  {
    GapWithinSubmission(Submitted(data, files), Indexed(name, Item));
    DecodeFromLength(widget, isEmpty, data, files, name, 0);
    DecodeFrom(widget, isEmpty, data, files, name, 0)
  }

  /** The sub-widget's value at each index below `n`, in index order. */
  function PerIndex<D, F, V>(widget: Extractor<D, F, V>, data: map<Name, D>, files: map<Name, F>,
                             name: Name, n: nat): (s: seq<Option<V>>)
    ensures |s| == n
  {
    seq(n, j requires 0 <= j < n => widget(data, files, Sub(name, Item, j)))
  }

  /** Reference filter: the elements of `s` that `Kept` admits, in order. */
  function Survivors<V>(isEmpty: V -> bool, withFiles: bool, s: seq<Option<V>>): seq<Option<V>> {
    if s == [] then []
    else if Kept(isEmpty, withFiles, s[0]) then [s[0]] + Survivors(isEmpty, withFiles, s[1..])
    else Survivors(isEmpty, withFiles, s[1..])
  }

  /** The positions, counted from `base`, of the elements of `s` that survive. */
  function KeptAt<V>(isEmpty: V -> bool, withFiles: bool, s: seq<Option<V>>, base: nat): seq<nat> {
    if s == [] then []
    else if Kept(isEmpty, withFiles, s[0]) then [base] + KeptAt(isEmpty, withFiles, s[1..], base + 1)
    else KeptAt(isEmpty, withFiles, s[1..], base + 1)
  }

  /** The kept positions lie within `s`, in strictly increasing order. */
  lemma {:induction false} KeptAtRange<V>(isEmpty: V -> bool, withFiles: bool, s: seq<Option<V>>, base: nat)
    ensures forall k :: 0 <= k < |KeptAt(isEmpty, withFiles, s, base)| ==>
              base <= KeptAt(isEmpty, withFiles, s, base)[k] < base + |s|
    ensures forall k, l :: 0 <= k < l < |KeptAt(isEmpty, withFiles, s, base)| ==>
              KeptAt(isEmpty, withFiles, s, base)[k] < KeptAt(isEmpty, withFiles, s, base)[l]
    decreases |s|
  {
    if s != [] {
      KeptAtRange(isEmpty, withFiles, s[1..], base + 1);
    }
  }

  /** The survivors are the elements at the kept positions. */
  lemma {:induction false} SurvivorsAt<V>(isEmpty: V -> bool, withFiles: bool, s: seq<Option<V>>, base: nat)
    ensures |KeptAt(isEmpty, withFiles, s, base)| == |Survivors(isEmpty, withFiles, s)|
    ensures forall k :: 0 <= k < |KeptAt(isEmpty, withFiles, s, base)| ==>
              base <= KeptAt(isEmpty, withFiles, s, base)[k] < base + |s|
              && Survivors(isEmpty, withFiles, s)[k] == s[KeptAt(isEmpty, withFiles, s, base)[k] - base]
    decreases |s|
  {
    if s != [] {
      SurvivorsAt(isEmpty, withFiles, s[1..], base + 1);
      var p, p' := KeptAt(isEmpty, withFiles, s, base), KeptAt(isEmpty, withFiles, s[1..], base + 1);
      var r, r' := Survivors(isEmpty, withFiles, s), Survivors(isEmpty, withFiles, s[1..]);
      if Kept(isEmpty, withFiles, s[0]) {
        assert p == [base] + p' && r == [s[0]] + r';
        forall k | 1 <= k < |p|
          ensures base <= p[k] < base + |s| && r[k] == s[p[k] - base]
        {
          assert p[k] == p'[k - 1] && r[k] == r'[k - 1];
          assert s[1..][p'[k - 1] - (base + 1)] == s[p[k] - base];
        }
      } else {
        forall k | 0 <= k < |p|
          ensures base <= p[k] < base + |s| && r[k] == s[p[k] - base]
        {
          assert s[1..][p'[k] - (base + 1)] == s[p[k] - base];
        }
      }
    }
  }

  /** An index is kept exactly when its element is admitted. */
  lemma {:induction false} KeptAtMembers<V>(isEmpty: V -> bool, withFiles: bool, s: seq<Option<V>>, base: nat)
    ensures forall j :: 0 <= j < |s| ==>
              (Kept(isEmpty, withFiles, s[j]) <==> base + j in KeptAt(isEmpty, withFiles, s, base))
    decreases |s|
  {
    if s != [] {
      KeptAtMembers(isEmpty, withFiles, s[1..], base + 1);
      KeptAtRange(isEmpty, withFiles, s[1..], base + 1);
      var p' := KeptAt(isEmpty, withFiles, s[1..], base + 1);
      assert base !in p';
      forall j | 1 <= j < |s|
        ensures s[1..][j - 1] == s[j] && (base + 1) + (j - 1) == base + j
      {
      }
    }
  }

  /** The survivors are exactly the admitted elements, at strictly increasing
      positions. */
  lemma SurvivorsInOrder<V>(isEmpty: V -> bool, withFiles: bool, s: seq<Option<V>>, base: nat)
    ensures |KeptAt(isEmpty, withFiles, s, base)| == |Survivors(isEmpty, withFiles, s)|
    ensures forall k :: 0 <= k < |KeptAt(isEmpty, withFiles, s, base)| ==>
              var p := KeptAt(isEmpty, withFiles, s, base)[k];
              base <= p < base + |s| && Survivors(isEmpty, withFiles, s)[k] == s[p - base]
    ensures forall k, l :: 0 <= k < l < |KeptAt(isEmpty, withFiles, s, base)| ==>
              KeptAt(isEmpty, withFiles, s, base)[k] < KeptAt(isEmpty, withFiles, s, base)[l]
    ensures forall j :: 0 <= j < |s| ==>
              (Kept(isEmpty, withFiles, s[j]) <==> base + j in KeptAt(isEmpty, withFiles, s, base))
  {
    KeptAtRange(isEmpty, withFiles, s, base);
    SurvivorsAt(isEmpty, withFiles, s, base);
    KeptAtMembers(isEmpty, withFiles, s, base);
  }

  /** When every element is admitted, the filter keeps them all. */
  lemma {:induction false} SurvivorsKeepAll<V>(isEmpty: V -> bool, withFiles: bool, s: seq<Option<V>>)
    requires forall j :: 0 <= j < |s| ==> Kept(isEmpty, withFiles, s[j])
    ensures Survivors(isEmpty, withFiles, s) == s
    decreases |s|
  {
    if s != [] {
      assert Kept(isEmpty, withFiles, s[0]);
      SurvivorsKeepAll(isEmpty, withFiles, s[1..]);
    }
  }

  lemma {:induction false} DecodeFromFilters<D, F, V>(widget: Extractor<D, F, V>, isEmpty: V -> bool,
                                                      data: map<Name, D>, files: map<Name, F>, name: Name, i: nat)
    ensures var g := Gap(Submitted(data, files), Indexed(name, Item), i);
            DecodeFrom(widget, isEmpty, data, files, name, i)
            == Survivors(isEmpty, |files| > 0, PerIndex(widget, data, files, name, g)[i..])
    decreases Remaining(Submitted(data, files), Indexed(name, Item), i)
  {
    var keys := Submitted(data, files);
    var g := Gap(keys, Indexed(name, Item), i);
    var s := PerIndex(widget, data, files, name, g);
    if Present(data, files, Sub(name, Item, i)) {
      RemainingShrinks(keys, Indexed(name, Item), i);
      DecodeFromFilters(widget, isEmpty, data, files, name, i + 1);
      assert Gap(keys, Indexed(name, Item), i + 1) == g;
      assert s[i..][1..] == s[i + 1..];
      assert s[i..][0] == widget(data, files, Sub(name, Item, i));
    } else {
      assert g == i;
    }
  }

  /** Decoding is a scan up to the first missing index followed by the
      EMPTY_VALUES filter over the sub-widget's values there. */
  lemma DecodeIsFilteredScan<D, F, V>(widget: Extractor<D, F, V>, isEmpty: V -> bool,
                                       data: map<Name, D>, files: map<Name, F>, name: Name)
    ensures Decode(widget, isEmpty, data, files, name)
            == Survivors(isEmpty, |files| > 0,
                         PerIndex(widget, data, files, name, Gap(Submitted(data, files), Indexed(name, Item), 0)))
  {
    DecodeFromFilters(widget, isEmpty, data, files, name, 0);
    var s := PerIndex(widget, data, files, name, Gap(Submitted(data, files), Indexed(name, Item), 0));
    assert s[0..] == s;
  }

  /** The decoded values are the admitted per-index values, in index order:
      `KeptAt` lists their indices, strictly increasing, and an index below
      the gap appears there exactly when its value passes the filter. */
  lemma DecodePreservesOrder<D, F, V>(widget: Extractor<D, F, V>, isEmpty: V -> bool,
                                      data: map<Name, D>, files: map<Name, F>, name: Name)
    ensures var g := Gap(Submitted(data, files), Indexed(name, Item), 0);
            var r := Decode(widget, isEmpty, data, files, name);
            var p := KeptAt(isEmpty, |files| > 0, PerIndex(widget, data, files, name, g), 0);
            && |p| == |r|
            && (forall k :: 0 <= k < |p| ==> p[k] < g && r[k] == widget(data, files, Sub(name, Item, p[k])))
            && (forall k, l :: 0 <= k < l < |p| ==> p[k] < p[l])
            && (forall j :: 0 <= j < g ==>
                  (Kept(isEmpty, |files| > 0, widget(data, files, Sub(name, Item, j))) <==> j in p))
  {
    var g := Gap(Submitted(data, files), Indexed(name, Item), 0);
    DecodeIsFilteredScan(widget, isEmpty, data, files, name);
    var s := PerIndex(widget, data, files, name, g);
    SurvivorsInOrder(isEmpty, |files| > 0, s, 0);
    forall j | 0 <= j < g
      ensures s[j] == widget(data, files, Sub(name, Item, j)) && 0 + j == j
    {
    }
  }

  /** With files submitted, and a sub-widget that reads back either `None` or
      a non-empty value (as a file input does), every index keeps its place. */
  lemma DecodeKeepsPositionsWithFiles<D, F, V>(widget: Extractor<D, F, V>, isEmpty: V -> bool,
                                               data: map<Name, D>, files: map<Name, F>, name: Name)
    requires |files| > 0
    requires forall j :: 0 <= j < Gap(Submitted(data, files), Indexed(name, Item), 0) ==>
               var v := widget(data, files, Sub(name, Item, j)); v.None? || !isEmpty(v.value)
    ensures Decode(widget, isEmpty, data, files, name)
            == PerIndex(widget, data, files, name, Gap(Submitted(data, files), Indexed(name, Item), 0))
  {
    var s := PerIndex(widget, data, files, name, Gap(Submitted(data, files), Indexed(name, Item), 0));
    DecodeIsFilteredScan(widget, isEmpty, data, files, name);
    SurvivorsKeepAll(isEmpty, true, s);
  }

  lemma {:induction false} DecodeFromAgrees<D, F, V>(widget: Extractor<D, F, V>, isEmpty: V -> bool,
                                                     d1: map<Name, D>, f1: map<Name, F>,
                                                     d2: map<Name, D>, f2: map<Name, F>, name: Name, i: nat)
    requires (|f1| > 0) == (|f2| > 0)
    requires forall j :: i <= j <= Gap(Submitted(d1, f1), Indexed(name, Item), i) ==>
               (Present(d1, f1, Sub(name, Item, j)) <==> Present(d2, f2, Sub(name, Item, j)))
    requires forall j :: i <= j < Gap(Submitted(d1, f1), Indexed(name, Item), i) ==>
               widget(d1, f1, Sub(name, Item, j)) == widget(d2, f2, Sub(name, Item, j))
    ensures DecodeFrom(widget, isEmpty, d1, f1, name, i) == DecodeFrom(widget, isEmpty, d2, f2, name, i)
    decreases Remaining(Submitted(d1, f1), Indexed(name, Item), i)
  {
    var g := Gap(Submitted(d1, f1), Indexed(name, Item), i);
    if Present(d1, f1, Sub(name, Item, i)) {
      RemainingShrinks(Submitted(d1, f1), Indexed(name, Item), i);
      assert Gap(Submitted(d1, f1), Indexed(name, Item), i + 1) == g;
      DecodeFromAgrees(widget, isEmpty, d1, f1, d2, f2, name, i + 1);
    } else {
      assert g == i;
    }
  }

  /** The result is fixed by which indices up to the first gap were
      submitted, the sub-widget's values below the gap, and whether any file
      was submitted; nothing after the gap is looked at. */
  lemma DecodeDeterminedBeforeGap<D, F, V>(widget: Extractor<D, F, V>, isEmpty: V -> bool,
                                           d1: map<Name, D>, f1: map<Name, F>,
                                           d2: map<Name, D>, f2: map<Name, F>, name: Name)
    requires (|f1| > 0) == (|f2| > 0)
    requires forall j :: 0 <= j <= Gap(Submitted(d1, f1), Indexed(name, Item), 0) ==>
               (Present(d1, f1, Sub(name, Item, j)) <==> Present(d2, f2, Sub(name, Item, j)))
    requires forall j :: 0 <= j < Gap(Submitted(d1, f1), Indexed(name, Item), 0) ==>
               widget(d1, f1, Sub(name, Item, j)) == widget(d2, f2, Sub(name, Item, j))
    ensures Decode(widget, isEmpty, d1, f1, name) == Decode(widget, isEmpty, d2, f2, name)
  {
    DecodeFromAgrees(widget, isEmpty, d1, f1, d2, f2, name, 0);
  }

  /** For a sub-widget that reads only its own entry, extra entries posted
      past the first gap leave the result unchanged, provided they do not
      turn a submission without files into one with files. */
  lemma DecodeIgnoresKeysBeyondGap<D(!new), F(!new), V>(widget: Extractor<D, F, V>, isEmpty: V -> bool,
                                                      data: map<Name, D>, files: map<Name, F>, name: Name,
                                                      extraData: map<Name, D>, extraFiles: map<Name, F>)
    requires Local(widget)
    requires forall j :: 0 <= j <= Gap(Submitted(data, files), Indexed(name, Item), 0) ==>
               Sub(name, Item, j) !in extraData && Sub(name, Item, j) !in extraFiles
    requires |files| > 0 || |extraFiles| == 0
    ensures Decode(widget, isEmpty, data + extraData, files + extraFiles, name)
            == Decode(widget, isEmpty, data, files, name)
  {
    var g := Gap(Submitted(data, files), Indexed(name, Item), 0);
    var d2, f2 := data + extraData, files + extraFiles;
    assert (|files| > 0) == (|f2| > 0) by {
      if |files| > 0 {
        assert files.Keys <= f2.Keys;
      } else {
        assert f2 == files;
      }
    }
    forall j | 0 <= j <= g
      ensures Present(data, files, Sub(name, Item, j)) <==> Present(d2, f2, Sub(name, Item, j))
      ensures j < g ==> widget(data, files, Sub(name, Item, j)) == widget(d2, f2, Sub(name, Item, j))
    {
      LocalRead(widget, data, files, d2, f2, Sub(name, Item, j));
    }
    DecodeDeterminedBeforeGap(widget, isEmpty, data, files, d2, f2, name);
  }

  // ---------------------------------------------------------------------
  // Round trip

  function Lift<V>(xs: seq<V>): (r: seq<Option<V>>)
    ensures |r| == |xs|
    ensures forall k :: 0 <= k < |xs| ==> r[k] == Some(xs[k])
  {
    seq(|xs|, k requires 0 <= k < |xs| => Some(xs[k]))
  }

  /** Posting the slots of `vs` submits exactly `name_0 … name_{n-1}`, each
      holding its value. */
  lemma {:induction false} PostOfSlots<E>(name: Name, id: Option<string>, vs: seq<E>)
    ensures forall j: nat :: Sub(name, Item, j) in Post(SlotsFor(name, id, vs)) <==> j < |vs|
    ensures forall j :: 0 <= j < |vs| ==> Post(SlotsFor(name, id, vs))[Sub(name, Item, j)] == vs[j]
    decreases |vs|
  {
    if vs != [] {
      var n := |vs| - 1;
      PostOfSlots(name, id, vs[..n]);
      assert SlotsFor(name, id, vs)[..n] == SlotsFor(name, id, vs[..n]);
      assert Post(SlotsFor(name, id, vs))
             == Post(SlotsFor(name, id, vs[..n]))[Sub(name, Item, n) := vs[n]];
    }
  }

  /** One step of decoding plain-input entries, with no files posted. */
  lemma LookupStep<V, F>(name: Name, isEmpty: V -> bool, data: map<Name, V>, i: nat)
    ensures var slot := Sub(name, Item, i);
            DecodeFrom<V, F, V>(Lookup, isEmpty, data, map[], name, i)
            == if slot !in data then []
               else if isEmpty(data[slot]) then DecodeFrom<V, F, V>(Lookup, isEmpty, data, map[], name, i + 1)
               else [Some(data[slot])] + DecodeFrom<V, F, V>(Lookup, isEmpty, data, map[], name, i + 1)
  {
    var files: map<Name, F> := map[];
    DecodeFromUnfold<V, F, V>(Lookup, isEmpty, data, files, name, i);
    assert |files| == 0;
  }

  lemma {:induction false} RoundTripFrom<V, F>(name: Name, xs: seq<V>, isEmpty: V -> bool,
                                              data: map<Name, V>, i: nat)
    requires forall k :: 0 <= k < |xs| ==> !isEmpty(xs[k])
    requires forall j: nat :: Sub(name, Item, j) in data <==> j <= |xs|
    requires forall j :: 0 <= j < |xs| ==> data[Sub(name, Item, j)] == xs[j]
    requires isEmpty(data[Sub(name, Item, |xs|)])
    requires i <= |xs| + 1
    ensures DecodeFrom<V, F, V>(Lookup, isEmpty, data, map[], name, i) == if i <= |xs| then Lift(xs[i..]) else []
    decreases |xs| + 1 - i
  {
    LookupStep<V, F>(name, isEmpty, data, i);
    if i < |xs| {
      RoundTripFrom<V, F>(name, xs, isEmpty, data, i + 1);
      var slot := Sub(name, Item, i);
      assert slot in data && data[slot] == xs[i] && !isEmpty(xs[i]);
      assert Lift(xs[i..]) == [Some(xs[i])] + Lift(xs[i + 1..]);
    } else if i == |xs| {
      RoundTripFrom<V, F>(name, xs, isEmpty, data, i + 1);
    }
  }

  /** Rendering a list (or tuple, or `None`) whose elements are all
      non-empty, posting the rendered slots back and decoding them with a
      sub-widget that reads its own entry returns the elements: the trailing
      blank slot is dropped. */
  lemma RenderDecodeRoundTrip<V, F>(name: Name, id: Option<string>, value: ListInput<V>, blank: V, isEmpty: V -> bool)
    requires !value.OtherValue?
    requires isEmpty(blank)
    requires forall k :: 0 <= k < |Items(value)| ==> !isEmpty(Items(value)[k])
    ensures RenderFixed(name, id, value, blank).Ok?
    ensures Decode<V, F, V>(Lookup, isEmpty, Post(RenderFixed(name, id, value, blank).value.slots), map[], name)
            == Lift(Items(value))
  {
    var xs := Items(value);
    var vs := xs + [blank];
    assert RenderFixed(name, id, value, blank).value.slots == SlotsFor(name, id, vs);
    PostOfSlots(name, id, vs);
    var data := Post(SlotsFor(name, id, vs));
    RoundTripFrom<V, F>(name, xs, isEmpty, data, 0);
    assert xs[0..] == xs;
  }
}
