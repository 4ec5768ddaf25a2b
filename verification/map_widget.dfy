/** `MapWidget`: a dict value is rendered as one key/value group per entry
    plus an empty trailing group, named `name_key_i` / `name_value_i`, and
    read back by walking the submitted `name_key_i` from index 0. */
module MapWidget {
  import opened FormData
  import opened BaseContainer

  /** The Python value handed to `render`; a dict's items in insertion order. */
  datatype MapInput<K, E> =
    | NoDict
    | DictValue(entries: seq<(K, E)>)
    | NotDict

  /** The items to render: none for `None`. */
  function Entries<K, E>(value: MapInput<K, E>): seq<(K, E)> {
    if value.DictValue? then value.entries else []
  }

  /** One rendered entry: the fieldset's id and the key and value sub-widget
      render calls. */
  datatype Group<K, E> = Group(fieldsetId: Option<string>, key: Slot<K>, value: Slot<E>)

  /** `fieldset_<id>_<i>` when the container has a non-empty id; otherwise the
      fieldset carries no id. */
  function FieldsetId(id: Option<string>, i: nat): Option<string> {
    if Truthy(id) then Some("fieldset_" + Spell(Sub(Base(id.value), Item, i))) else None
  }

  function GroupsFor<K, E>(name: Name, id: Option<string>, entries: seq<(K, E)>): seq<Group<K, E>> {
    seq(|entries|, i requires 0 <= i < |entries| =>
      Group(FieldsetId(id, i),
            Slot(Sub(name, Key, i), SubId(id, Key, i), entries[i].0),
            Slot(Sub(name, Value, i), SubId(id, Value, i), entries[i].1)))
  }

  /** The groups a dict with `entries` must render to: one per entry, in
      order, then a trailing group holding the blanks; group `i` names its
      sub-widgets `name_key_i` and `name_value_i`. */
  ghost predicate WellRendered<K, E>(name: Name, id: Option<string>, entries: seq<(K, E)>,
                                     blankKey: K, blankValue: E, groups: seq<Group<K, E>>) {
    && |groups| == |entries| + 1
    && (forall i :: 0 <= i < |groups| ==>
          && groups[i].key.name == Sub(name, Key, i) && groups[i].key.id == SubId(id, Key, i)
          && groups[i].value.name == Sub(name, Value, i) && groups[i].value.id == SubId(id, Value, i)
          && groups[i].fieldsetId == FieldsetId(id, i))
    && (forall i :: 0 <= i < |entries| ==>
          groups[i].key.value == entries[i].0 && groups[i].value.value == entries[i].1)
    && groups[|entries|].key.value == blankKey
    && groups[|entries|].value.value == blankValue
  }

  /** `MapWidget.render` as written; `blankKey` and `blankValue` are the
      `('', '')` it appends. `None` passes the type guard and then fails at
      `.items()`. */
  function Render<K, E>(name: Name, id: Option<string>, value: MapInput<K, E>,
                        blankKey: K, blankValue: E): (r: Result<seq<Group<K, E>>>)
    ensures value.NotDict? ==> r == Err(WrongType(name, Dict))
    ensures value.NoDict? ==> r == Err(MissingAttribute("items"))
    ensures value.DictValue? ==> r.Ok? && WellRendered(name, id, value.entries, blankKey, blankValue, r.value)
  {
    match value
    case NotDict => Err(WrongType(name, Dict))
    case NoDict => Err(MissingAttribute("items"))
    case DictValue(entries) => Ok(GroupsFor(name, id, entries + [(blankKey, blankValue)]))
  }

  /** `render` as its type guard intends: `None` renders like an empty dict. */
  function RenderFixed<K, E>(name: Name, id: Option<string>, value: MapInput<K, E>,
                             blankKey: K, blankValue: E): (r: Result<seq<Group<K, E>>>)
    ensures r.Err? <==> value.NotDict?
    ensures r.Err? ==> r.error == WrongType(name, Dict)
    ensures r.Ok? ==> WellRendered(name, id, Entries(value), blankKey, blankValue, r.value)
  {
    if value.NotDict? then Err(WrongType(name, Dict))
    else Ok(GroupsFor(name, id, Entries(value) + [(blankKey, blankValue)]))
  }

  /** Wherever the written `render` succeeds, the corrected one renders the
      same groups. */
  lemma RenderFixedAgrees<K, E>(name: Name, id: Option<string>, value: MapInput<K, E>, blankKey: K, blankValue: E)
    requires Render(name, id, value, blankKey, blankValue).Ok?
    ensures RenderFixed(name, id, value, blankKey, blankValue) == Render(name, id, value, blankKey, blankValue)
  {
  }

  // ---------------------------------------------------------------------
  // The label

  lemma SpellLength(s: string, kind: Kind, i: nat)
    ensures |Spell(Sub(Base(s), kind, i))| == |s| + |Infix(kind)| + |Decimal(i)|
  {
    assert Spell(Base(s)) == s;
  }

  /** The inherited `id_for_label` points the label at `<id>_0`, but a map
      widget gives its elements the ids `fieldset_<id>_<i>`, `<id>_key_<i>`
      and `<id>_value_<i>`: the label's target is none of them. */
  lemma LabelMatchesNoElement<K, E>(name: Name, id: Option<string>, value: MapInput<K, E>,
                                    blankKey: K, blankValue: E)
    requires Truthy(id)
    requires !value.NotDict?
    ensures RenderFixed(name, id, value, blankKey, blankValue).Ok?
    ensures forall g :: g in RenderFixed(name, id, value, blankKey, blankValue).value ==>
              && g.fieldsetId != IdForLabel(id)
              && g.key.id != IdForLabel(id)
              && g.value.id != IdForLabel(id)
  {
    var groups := RenderFixed(name, id, value, blankKey, blankValue).value;
    var target := IdForLabel(id).value;
    assert |target| == |id.value| + 2;
    forall i | 0 <= i < |groups|
      ensures groups[i].fieldsetId != IdForLabel(id)
      ensures groups[i].key.id != IdForLabel(id)
      ensures groups[i].value.id != IdForLabel(id)
    {
      SpellLength(id.value, Item, i);
      SpellLength(id.value, Key, i);
      SpellLength(id.value, Value, i);
    }
  }

  /** The label target a map widget needs: its first key input. */
  function IdForLabelFixed(id: Option<string>): (r: Option<string>)
    ensures Truthy(id) ==> Truthy(r) && id.value < r.value
    ensures !Truthy(id) ==> r == id
  {
    if Truthy(id) then
      assert id.value + "_key_0" == id.value + ("_key_0");
      Some(id.value + "_key_0")
    else id
  }

  /** The corrected label targets the key sub-widget of the first group,
      which every successful rendering has. */
  lemma FixedLabelTargetsFirstKey<K, E>(name: Name, id: Option<string>, value: MapInput<K, E>,
                                        blankKey: K, blankValue: E)
    requires !value.NotDict?
    ensures RenderFixed(name, id, value, blankKey, blankValue).Ok?
    ensures RenderFixed(name, id, value, blankKey, blankValue).value[0].key.id == IdForLabelFixed(id)
  {
    if Truthy(id) {
      assert Decimal(0) == "0";
      assert Spell(Base(id.value)) == id.value;
      assert Spell(Sub(Base(id.value), Key, 0)) == id.value + "_key_" + "0";
      assert id.value + "_key_" + "0" == id.value + "_key_0";
    }
  }

  // ---------------------------------------------------------------------
  // Decoding

  /** The scan of `value_from_datadict` from index `i` on, `acc` being the
      dict built so far. */
  function DecodeFrom<D, F, K, V>(keyWidget: Extractor<D, F, K>, valueWidget: Extractor<D, F, V>,
                                      isEmptyKey: K -> bool, data: map<Name, D>, files: map<Name, F>,
                                      name: Name, i: nat, acc: map<K, Option<V>>): (r: map<K, Option<V>>)
    ensures acc.Keys <= r.Keys
    ensures (forall k :: k in acc ==> !isEmptyKey(k)) ==> forall k :: k in r ==> !isEmptyKey(k)
    decreases Remaining(data.Keys, Indexed(name, Key), i)
  {
    var keySlot := Sub(name, Key, i);
    if keySlot in data then
      RemainingShrinks(data.Keys, Indexed(name, Key), i);
      var key := keyWidget(data, files, keySlot);
      var value := valueWidget(data, files, Sub(name, Value, i));
      var acc' := if Empty(isEmptyKey, key) then acc else acc[key.value := value];
      DecodeFrom(keyWidget, valueWidget, isEmptyKey, data, files, name, i + 1, acc')
    else
      acc
  }

  /** `MapWidget.value_from_datadict`: no empty key, and at most one entry
      per contiguous `name_key_i` in `data`. */
  function Decode<D, F, K, V>(keyWidget: Extractor<D, F, K>, valueWidget: Extractor<D, F, V>,
                                  isEmptyKey: K -> bool, data: map<Name, D>, files: map<Name, F>,
                                  name: Name): (r: map<K, Option<V>>)
    ensures forall k :: k in r ==> !isEmptyKey(k)
    ensures |r| <= Gap(data.Keys, Indexed(name, Key), 0) <= |data|
  {
    GapWithinSubmission(data.Keys, Indexed(name, Key));
    DecodeFromSize(keyWidget, valueWidget, isEmptyKey, data, files, name, 0, map[]);
    DecodeFrom(keyWidget, valueWidget, isEmptyKey, data, files, name, 0, map[])
  }

  /** The scan adds at most one key per index before the first gap. */
  lemma {:induction false} DecodeFromSize<D, F, K, V>(keyWidget: Extractor<D, F, K>, valueWidget: Extractor<D, F, V>,
                                                        isEmptyKey: K -> bool, data: map<Name, D>, files: map<Name, F>,
                                                        name: Name, i: nat, acc: map<K, Option<V>>)
    ensures |DecodeFrom(keyWidget, valueWidget, isEmptyKey, data, files, name, i, acc)|
            <= |acc| + (Gap(data.Keys, Indexed(name, Key), i) - i)
    decreases Remaining(data.Keys, Indexed(name, Key), i)
  {
    DecodeFromUnfold(keyWidget, valueWidget, isEmptyKey, data, files, name, i, acc);
    if Sub(name, Key, i) in data {
      RemainingShrinks(data.Keys, Indexed(name, Key), i);
      var key := keyWidget(data, files, Sub(name, Key, i));
      var value := valueWidget(data, files, Sub(name, Value, i));
      var acc' := if Empty(isEmptyKey, key) then acc else acc[key.value := value];
      KeysAfterStep(acc, key, value, isEmptyKey);
      assert |acc'| <= |acc| + 1 by {
        assert |acc'.Keys| <= |acc.Keys| + |if Empty(isEmptyKey, key) then {} else {key.value}|;
      }
      DecodeFromSize(keyWidget, valueWidget, isEmptyKey, data, files, name, i + 1, acc');
      assert Gap(data.Keys, Indexed(name, Key), i + 1) == Gap(data.Keys, Indexed(name, Key), i);
    }
  }

  /** The non-empty keys the key sub-widget reads at indices `from .. to-1`. */
  function DecodedKeys<D, F, K>(keyWidget: Extractor<D, F, K>, isEmptyKey: K -> bool,
                                data: map<Name, D>, files: map<Name, F>, name: Name,
                                from: nat, to: nat): set<K> {
    set j: nat | from <= j < to && !Empty(isEmptyKey, keyWidget(data, files, Sub(name, Key, j)))
      :: keyWidget(data, files, Sub(name, Key, j)).value
  }

  /** No index in `from .. to-1` carries the key `k`. */
  ghost predicate NotSetIn<D, F, K>(keyWidget: Extractor<D, F, K>, data: map<Name, D>, files: map<Name, F>,
                                    name: Name, from: nat, to: nat, k: K) {
    forall j :: from <= j < to ==> keyWidget(data, files, Sub(name, Key, j)) != Some(k)
  }

  /** One step of the scan. */
  lemma DecodeFromUnfold<D, F, K, V>(keyWidget: Extractor<D, F, K>, valueWidget: Extractor<D, F, V>,
                                         isEmptyKey: K -> bool, data: map<Name, D>, files: map<Name, F>,
                                         name: Name, i: nat, acc: map<K, Option<V>>)
    ensures var key := keyWidget(data, files, Sub(name, Key, i));
            var value := valueWidget(data, files, Sub(name, Value, i));
            DecodeFrom(keyWidget, valueWidget, isEmptyKey, data, files, name, i, acc)
            == if Sub(name, Key, i) in data
               then DecodeFrom(keyWidget, valueWidget, isEmptyKey, data, files, name, i + 1,
                               if Empty(isEmptyKey, key) then acc else acc[key.value := value])
               else acc
  {
  }

  lemma DecodedKeysStep<D, F, K>(keyWidget: Extractor<D, F, K>, isEmptyKey: K -> bool,
                                 data: map<Name, D>, files: map<Name, F>, name: Name, i: nat, g: nat)
    requires i < g
    ensures var key := keyWidget(data, files, Sub(name, Key, i));
            DecodedKeys(keyWidget, isEmptyKey, data, files, name, i, g)
            == (if Empty(isEmptyKey, key) then {} else {key.value})
               + DecodedKeys(keyWidget, isEmptyKey, data, files, name, i + 1, g)
  {
    var key := keyWidget(data, files, Sub(name, Key, i));
    var here: set<K> := if Empty(isEmptyKey, key) then {} else {key.value};
    var all := DecodedKeys(keyWidget, isEmptyKey, data, files, name, i, g);
    var later := DecodedKeys(keyWidget, isEmptyKey, data, files, name, i + 1, g);
    forall k | k in all
      ensures k in here + later
    {
      var j: nat :| i <= j < g && !Empty(isEmptyKey, keyWidget(data, files, Sub(name, Key, j)))
                    && keyWidget(data, files, Sub(name, Key, j)).value == k;
      if j > i {
        assert k in later;
      }
    }
    forall k | k in here + later
      ensures k in all
    {
      if k in here {
        assert k == keyWidget(data, files, Sub(name, Key, i)).value;
      } else {
        var j: nat :| i + 1 <= j < g && !Empty(isEmptyKey, keyWidget(data, files, Sub(name, Key, j)))
                      && keyWidget(data, files, Sub(name, Key, j)).value == k;
        assert k in all;
      }
    }
  }

  lemma KeysAfterStep<K, V>(acc: map<K, Option<V>>, key: Option<K>, value: Option<V>, isEmptyKey: K -> bool)
    ensures (if Empty(isEmptyKey, key) then acc else acc[key.value := value]).Keys
            == acc.Keys + (if Empty(isEmptyKey, key) then {} else {key.value})
  {
  }

  lemma UnionRegroup<T>(r: set<T>, a': set<T>, a: set<T>, h: set<T>, l: set<T>, all: set<T>)
    requires r == a' + l && a' == a + h && all == h + l
    ensures r == a + all
  {
  }

  /** One step of the key bookkeeping: if the rest of the scan adds the keys
      read after index `i`, the scan from `i` adds those read from `i` on. */
  lemma DecodeFromKeysStep<D, F, K, V>(keyWidget: Extractor<D, F, K>, valueWidget: Extractor<D, F, V>,
                                         isEmptyKey: K -> bool, data: map<Name, D>, files: map<Name, F>,
                                         name: Name, i: nat, g: nat, acc: map<K, Option<V>>)
    requires Sub(name, Key, i) in data && i < g
    requires var key := keyWidget(data, files, Sub(name, Key, i));
             var acc' := if Empty(isEmptyKey, key) then acc
                         else acc[key.value := valueWidget(data, files, Sub(name, Value, i))];
             DecodeFrom(keyWidget, valueWidget, isEmptyKey, data, files, name, i + 1, acc').Keys
             == acc'.Keys + DecodedKeys(keyWidget, isEmptyKey, data, files, name, i + 1, g)
    ensures DecodeFrom(keyWidget, valueWidget, isEmptyKey, data, files, name, i, acc).Keys
            == acc.Keys + DecodedKeys(keyWidget, isEmptyKey, data, files, name, i, g)
  {
    var key := keyWidget(data, files, Sub(name, Key, i));
    var value := valueWidget(data, files, Sub(name, Value, i));
    var here: set<K> := if Empty(isEmptyKey, key) then {} else {key.value};
    var acc' := if Empty(isEmptyKey, key) then acc else acc[key.value := value];
    var r' := DecodeFrom(keyWidget, valueWidget, isEmptyKey, data, files, name, i + 1, acc');
    var later := DecodedKeys(keyWidget, isEmptyKey, data, files, name, i + 1, g);
    var all := DecodedKeys(keyWidget, isEmptyKey, data, files, name, i, g);
    DecodeFromUnfold(keyWidget, valueWidget, isEmptyKey, data, files, name, i, acc);
    DecodedKeysStep(keyWidget, isEmptyKey, data, files, name, i, g);
    KeysAfterStep(acc, key, value, isEmptyKey);
    UnionRegroup(r'.Keys, acc'.Keys, acc.Keys, here, later, all);
  }

  /** From index `i` on, the scan adds exactly the non-empty keys read below
      the gap to the keys already collected. */
  lemma {:induction false} DecodeFromKeys<D, F, K, V>(keyWidget: Extractor<D, F, K>, valueWidget: Extractor<D, F, V>,
                                                        isEmptyKey: K -> bool, data: map<Name, D>, files: map<Name, F>,
                                                        name: Name, i: nat, acc: map<K, Option<V>>)
    ensures DecodeFrom(keyWidget, valueWidget, isEmptyKey, data, files, name, i, acc).Keys
            == acc.Keys + DecodedKeys(keyWidget, isEmptyKey, data, files, name, i, Gap(data.Keys, Indexed(name, Key), i))
    decreases Remaining(data.Keys, Indexed(name, Key), i)
  {
    var g := Gap(data.Keys, Indexed(name, Key), i);
    if Sub(name, Key, i) in data {
      var key := keyWidget(data, files, Sub(name, Key, i));
      var acc' := if Empty(isEmptyKey, key) then acc
                  else acc[key.value := valueWidget(data, files, Sub(name, Value, i))];
      RemainingShrinks(data.Keys, Indexed(name, Key), i);
      assert Gap(data.Keys, Indexed(name, Key), i + 1) == g;
      DecodeFromKeys(keyWidget, valueWidget, isEmptyKey, data, files, name, i + 1, acc');
      DecodeFromKeysStep(keyWidget, valueWidget, isEmptyKey, data, files, name, i, g, acc);
    } else {
      DecodeFromUnfold(keyWidget, valueWidget, isEmptyKey, data, files, name, i, acc);
      assert g == i;
      assert DecodedKeys(keyWidget, isEmptyKey, data, files, name, i, g) == {};
    }
  }

  /** From index `i` on, a collected key that no later index carries keeps
      its value. */
  lemma {:induction false} DecodeFromKeeps<D, F, K, V>(keyWidget: Extractor<D, F, K>, valueWidget: Extractor<D, F, V>,
                                                         isEmptyKey: K -> bool, data: map<Name, D>, files: map<Name, F>,
                                                         name: Name, i: nat, acc: map<K, Option<V>>, k: K)
    requires k in acc
    requires NotSetIn(keyWidget, data, files, name, i, Gap(data.Keys, Indexed(name, Key), i), k)
    ensures DecodeFrom(keyWidget, valueWidget, isEmptyKey, data, files, name, i, acc)[k] == acc[k]
    decreases Remaining(data.Keys, Indexed(name, Key), i)
  {
    DecodeFromUnfold(keyWidget, valueWidget, isEmptyKey, data, files, name, i, acc);
    if Sub(name, Key, i) in data {
      var g := Gap(data.Keys, Indexed(name, Key), i);
      RemainingShrinks(data.Keys, Indexed(name, Key), i);
      assert Gap(data.Keys, Indexed(name, Key), i + 1) == g;
      var key := keyWidget(data, files, Sub(name, Key, i));
      var value := valueWidget(data, files, Sub(name, Value, i));
      var acc' := if Empty(isEmptyKey, key) then acc else acc[key.value := value];
      assert key != Some(k);
      assert NotSetIn(keyWidget, data, files, name, i + 1, g, k);
      DecodeFromKeeps(keyWidget, valueWidget, isEmptyKey, data, files, name, i + 1, acc', k);
    }
  }

  /** From index `i` on, a key read at index `j` that no later index carries
      ends up with the value read at `j`. */
  lemma {:induction false} DecodeFromLastWins<D, F, K, V>(keyWidget: Extractor<D, F, K>, valueWidget: Extractor<D, F, V>,
                                                            isEmptyKey: K -> bool, data: map<Name, D>, files: map<Name, F>,
                                                            name: Name, i: nat, acc: map<K, Option<V>>, j: nat)
    requires i <= j < Gap(data.Keys, Indexed(name, Key), i)
    requires !Empty(isEmptyKey, keyWidget(data, files, Sub(name, Key, j)))
    requires NotSetIn(keyWidget, data, files, name, j + 1, Gap(data.Keys, Indexed(name, Key), i),
                      keyWidget(data, files, Sub(name, Key, j)).value)
    ensures var r := DecodeFrom(keyWidget, valueWidget, isEmptyKey, data, files, name, i, acc);
            var k := keyWidget(data, files, Sub(name, Key, j)).value;
            k in r && r[k] == valueWidget(data, files, Sub(name, Value, j))
    decreases Remaining(data.Keys, Indexed(name, Key), i)
  {
    var g := Gap(data.Keys, Indexed(name, Key), i);
    assert Sub(name, Key, i) in data;
    DecodeFromUnfold(keyWidget, valueWidget, isEmptyKey, data, files, name, i, acc);
    RemainingShrinks(data.Keys, Indexed(name, Key), i);
    assert Gap(data.Keys, Indexed(name, Key), i + 1) == g;
    var key := keyWidget(data, files, Sub(name, Key, i));
    var value := valueWidget(data, files, Sub(name, Value, i));
    var acc' := if Empty(isEmptyKey, key) then acc else acc[key.value := value];
    if j == i {
      assert key.value in acc' && acc'[key.value] == value;
      DecodeFromKeeps(keyWidget, valueWidget, isEmptyKey, data, files, name, i + 1, acc', key.value);
    } else {
      DecodeFromLastWins(keyWidget, valueWidget, isEmptyKey, data, files, name, i + 1, acc', j);
    }
  }

  /** The decoded dict, characterised: its keys are exactly the non-empty
      keys read below the first missing `name_key_i`, and each maps to the
      value read at the last index carrying it, so a later index overwrites
      an earlier one. */
  lemma DecodeCharacterised<D, F, K, V>(keyWidget: Extractor<D, F, K>, valueWidget: Extractor<D, F, V>,
                                           isEmptyKey: K -> bool, data: map<Name, D>, files: map<Name, F>, name: Name)
    ensures var g := Gap(data.Keys, Indexed(name, Key), 0);
            var r := Decode(keyWidget, valueWidget, isEmptyKey, data, files, name);
            && r.Keys == DecodedKeys(keyWidget, isEmptyKey, data, files, name, 0, g)
            && (forall j :: 0 <= j < g ==>
                  var key := keyWidget(data, files, Sub(name, Key, j));
                  !Empty(isEmptyKey, key) && NotSetIn(keyWidget, data, files, name, j + 1, g, key.value) ==>
                    r[key.value] == valueWidget(data, files, Sub(name, Value, j)))
  {
    DecodeFromKeys(keyWidget, valueWidget, isEmptyKey, data, files, name, 0, map[]);
    var g := Gap(data.Keys, Indexed(name, Key), 0);
    forall j | 0 <= j < g && !Empty(isEmptyKey, keyWidget(data, files, Sub(name, Key, j)))
                          && NotSetIn(keyWidget, data, files, name, j + 1, g, keyWidget(data, files, Sub(name, Key, j)).value)
      ensures var r := Decode(keyWidget, valueWidget, isEmptyKey, data, files, name);
              var k := keyWidget(data, files, Sub(name, Key, j)).value;
              k in r && r[k] == valueWidget(data, files, Sub(name, Value, j))
    {
      DecodeFromLastWins(keyWidget, valueWidget, isEmptyKey, data, files, name, 0, map[], j);
    }
  }

  lemma {:induction false} ScanFromIgnoresFiles<D, F, K, V>(keyWidget: Extractor<D, F, K>, valueWidget: Extractor<D, F, V>,
                                                              isEmptyKey: K -> bool, data: map<Name, D>,
                                                              f1: map<Name, F>, f2: map<Name, F>,
                                                              name: Name, i: nat, acc: map<K, Option<V>>)
    requires forall j :: i <= j < Gap(data.Keys, Indexed(name, Key), i) ==>
               && keyWidget(data, f1, Sub(name, Key, j)) == keyWidget(data, f2, Sub(name, Key, j))
               && valueWidget(data, f1, Sub(name, Value, j)) == valueWidget(data, f2, Sub(name, Value, j))
    ensures DecodeFrom(keyWidget, valueWidget, isEmptyKey, data, f1, name, i, acc)
            == DecodeFrom(keyWidget, valueWidget, isEmptyKey, data, f2, name, i, acc)
    decreases Remaining(data.Keys, Indexed(name, Key), i)
  {
    if Sub(name, Key, i) in data {
      RemainingShrinks(data.Keys, Indexed(name, Key), i);
      assert Gap(data.Keys, Indexed(name, Key), i + 1) == Gap(data.Keys, Indexed(name, Key), i);
      var key := keyWidget(data, f1, Sub(name, Key, i));
      var value := valueWidget(data, f1, Sub(name, Value, i));
      var acc' := if Empty(isEmptyKey, key) then acc else acc[key.value := value];
      ScanFromIgnoresFiles(keyWidget, valueWidget, isEmptyKey, data, f1, f2, name, i + 1, acc');
    }
  }

  /** Which indices are scanned depends on `data` alone: a `name_key_i`
      present only among the files neither extends nor shortens the scan,
      so two submissions with the same `data` decode alike whenever the
      sub-widgets read the same values below the gap. */
  lemma ScanIgnoresFiles<D, F, K, V>(keyWidget: Extractor<D, F, K>, valueWidget: Extractor<D, F, V>,
                                        isEmptyKey: K -> bool, data: map<Name, D>,
                                        f1: map<Name, F>, f2: map<Name, F>, name: Name)
    requires forall j :: 0 <= j < Gap(data.Keys, Indexed(name, Key), 0) ==>
               && keyWidget(data, f1, Sub(name, Key, j)) == keyWidget(data, f2, Sub(name, Key, j))
               && valueWidget(data, f1, Sub(name, Value, j)) == valueWidget(data, f2, Sub(name, Value, j))
    ensures Decode(keyWidget, valueWidget, isEmptyKey, data, f1, name)
            == Decode(keyWidget, valueWidget, isEmptyKey, data, f2, name)
  {
    ScanFromIgnoresFiles(keyWidget, valueWidget, isEmptyKey, data, f1, f2, name, 0, map[]);
  }

  // ---------------------------------------------------------------------
  // Round trip

  /** The dict built from items in order, a later item overwriting an
      earlier one with the same key. */
  function ToMap<K(==), E>(entries: seq<(K, E)>): map<K, E> {
    if entries == [] then map[]
    else
      var last := entries[|entries| - 1];
      ToMap(entries[..|entries| - 1])[last.0 := last.1]
  }

  function LiftValues<K(==), V>(m: map<K, V>): (r: map<K, Option<V>>)
    ensures r.Keys == m.Keys
    ensures forall k :: k in m ==> r[k] == Some(m[k])
  {
    map k | k in m :: Some(m[k])
  }

  /** The sub-widget render calls of `groups` in order: key, then value. */
  function Flatten<E>(groups: seq<Group<E, E>>): seq<Slot<E>> {
    if groups == [] then []
    else
      var last := groups[|groups| - 1];
      Flatten(groups[..|groups| - 1]) + [last.key, last.value]
  }

  /** Posting the groups for `es` submits `name_key_j` and `name_value_j`
      for exactly the indices of `es`, each holding its item's key and value. */
  lemma {:induction false} PostOfGroups<E>(name: Name, id: Option<string>, es: seq<(E, E)>)
    ensures var data := Post(Flatten(GroupsFor(name, id, es)));
            && (forall j: nat :: Sub(name, Key, j) in data <==> j < |es|)
            && (forall j :: 0 <= j < |es| ==>
                  Sub(name, Value, j) in data
                  && data[Sub(name, Key, j)] == es[j].0 && data[Sub(name, Value, j)] == es[j].1)
    decreases |es|
  {
    if es != [] {
      var n := |es| - 1;
      PostOfGroups(name, id, es[..n]);
      var groups := GroupsFor(name, id, es);
      assert groups[..n] == GroupsFor(name, id, es[..n]);
      var before := Flatten(groups[..n]);
      var flat := before + [groups[n].key, groups[n].value];
      assert Flatten(groups) == flat;
      assert flat[..|flat| - 1] == before + [groups[n].key];
      assert (before + [groups[n].key])[..|before|] == before;
      assert Post(flat) == Post(before)[Sub(name, Key, n) := es[n].0][Sub(name, Value, n) := es[n].1];
    }
  }

  lemma {:induction false} RoundTripFrom<V, F>(name: Name, es: seq<(V, V)>, isEmpty: V -> bool,
                                              data: map<Name, V>, i: nat)
    requires forall k :: 0 <= k < |es| ==> !isEmpty(es[k].0)
    requires forall j: nat :: Sub(name, Key, j) in data <==> j <= |es|
    requires forall j :: 0 <= j < |es| ==>
               Sub(name, Value, j) in data
               && data[Sub(name, Key, j)] == es[j].0 && data[Sub(name, Value, j)] == es[j].1
    requires isEmpty(data[Sub(name, Key, |es|)])
    requires i <= |es| + 1
    ensures var acc := LiftValues(ToMap(es[..if i <= |es| then i else |es|]));
            DecodeFrom<V, F, V, V>(Lookup, Lookup, isEmpty, data, map[], name, i, acc) == LiftValues(ToMap(es))
    decreases |es| + 1 - i
  {
    var files: map<Name, F> := map[];
    var acc := LiftValues(ToMap(es[..if i <= |es| then i else |es|]));
    if i < |es| {
      var key := Lookup(data, files, Sub(name, Key, i));
      var value := Lookup(data, files, Sub(name, Value, i));
      assert key == Some(es[i].0) && value == Some(es[i].1);
      assert !Empty(isEmpty, key);
      var acc' := acc[es[i].0 := Some(es[i].1)];
      assert DecodeFrom<V, F, V, V>(Lookup, Lookup, isEmpty, data, files, name, i, acc)
             == DecodeFrom<V, F, V, V>(Lookup, Lookup, isEmpty, data, files, name, i + 1, acc') by {
        DecodeFromUnfold<V, F, V, V>(Lookup, Lookup, isEmpty, data, files, name, i, acc);
      }
      assert acc' == LiftValues(ToMap(es[..i + 1])) by {
        assert es[..i + 1][..i] == es[..i];
        LiftUpdate(ToMap(es[..i]), es[i].0, es[i].1);
      }
      RoundTripFrom<V, F>(name, es, isEmpty, data, i + 1);
    } else if i == |es| {
      assert es[..i] == es;
      assert DecodeFrom<V, F, V, V>(Lookup, Lookup, isEmpty, data, files, name, i, acc)
             == DecodeFrom<V, F, V, V>(Lookup, Lookup, isEmpty, data, files, name, i + 1, acc) by {
        assert Empty(isEmpty, Lookup(data, files, Sub(name, Key, i)));
        DecodeFromUnfold<V, F, V, V>(Lookup, Lookup, isEmpty, data, files, name, i, acc);
      }
      RoundTripFrom<V, F>(name, es, isEmpty, data, i + 1);
    } else {
      assert es[..|es|] == es;
      assert Sub(name, Key, i) !in data;
      DecodeFromUnfold<V, F, V, V>(Lookup, Lookup, isEmpty, data, files, name, i, acc);
    }
  }

  lemma LiftUpdate<K, V>(m: map<K, V>, k: K, v: V)
    ensures LiftValues(m[k := v]) == LiftValues(m)[k := Some(v)]
  {
  }

  /** Rendering a dict (or `None`) whose keys are all non-empty, posting the
      rendered groups back and decoding them with sub-widgets that read their
      own entries returns the dict: the trailing blank group is dropped. */
  lemma RenderDecodeRoundTrip<V, F>(name: Name, id: Option<string>, value: MapInput<V, V>,
                                    blank: V, isEmpty: V -> bool)
    requires !value.NotDict?
    requires isEmpty(blank)
    requires forall k :: 0 <= k < |Entries(value)| ==> !isEmpty(Entries(value)[k].0)
    ensures RenderFixed(name, id, value, blank, blank).Ok?
    ensures Decode<V, F, V, V>(Lookup, Lookup, isEmpty,
                               Post(Flatten(RenderFixed(name, id, value, blank, blank).value)), map[], name)
            == LiftValues(ToMap(Entries(value)))
  {
    var es := Entries(value);
    var all := es + [(blank, blank)];
    PostOfGroups(name, id, all);
    var data := Post(Flatten(GroupsFor(name, id, all)));
    assert forall k :: 0 <= k < |es| ==> all[k] == es[k];
    RoundTripFrom<V, F>(name, es, isEmpty, data, 0);
    assert es[..0] == [];
  }
}
