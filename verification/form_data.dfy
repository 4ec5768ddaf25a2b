/** Vocabulary shared by the container widgets: field names, the flat
    submission a browser posts back, the framework's notion of an empty
    value, and the index runs the decoders walk. */
module FormData {

  /** A value that may be Python's `None`. */
  datatype Option<+T> = None | Some(value: T)

  /** What the type guard of a renderer asked for. */
  datatype Expected = ListOrTuple | Dict

  /** The exceptions a renderer raises: the `TypeError` of its own type guard,
      or the `AttributeError` of calling a method the value does not have. */
  datatype RenderError =
    | WrongType(field: Name, expected: Expected)
    | MissingAttribute(attribute: string)

  datatype Result<+T> = Ok(value: T) | Err(error: RenderError)

  /** Which sub-field of a container a name denotes:
      `name_i`, `name_key_i` or `name_value_i`. */
  datatype Kind = Item | Key | Value

  /** Form field names. `Sub(p, k, i)` is the name a container called `p`
      gives to its `i`-th sub-field of kind `k`; distinct constructions are
      distinct names. */
  datatype Name = Base(text: string) | Sub(parent: Name, kind: Kind, index: nat)

  function Digit(d: nat): (c: char)
    requires d < 10
    ensures '0' <= c <= '9'
  {
    (('0' as int) + d) as char
  }

  /** The decimal digits of `n`, as `'%s' % n` prints them. */
  function Decimal(n: nat): (s: string)
    ensures 1 <= |s|
    ensures forall k :: 0 <= k < |s| ==> '0' <= s[k] <= '9'
  {
    if n < 10 then [Digit(n)] else Decimal(n / 10) + [Digit(n % 10)]
  }

  function Infix(k: Kind): string {
    match k
    case Item => "_"
    case Key => "_key_"
    case Value => "_value_"
  }

  /** The string the widgets format for a name (`name + '_%s' % i` and its
      `_key_` / `_value_` variants). */
  function Spell(n: Name): string {
    match n
    case Base(text) => text
    case Sub(parent, kind, i) => Spell(parent) + Infix(kind) + Decimal(i)
  }

  /** Spelled out as strings, names of different containers can coincide:
      the first part of item 1 of field `f` and item 0 of a field called
      `f_1` are both `f_1_0`. The model keeps them apart by construction. */
  lemma SpellingCollides()
    ensures Sub(Sub(Base("f"), Item, 1), Item, 0) != Sub(Base("f_1"), Item, 0)
    ensures Spell(Sub(Sub(Base("f"), Item, 1), Item, 0)) == Spell(Sub(Base("f_1"), Item, 0))
  {
    assert Decimal(0) == "0" && Decimal(1) == "1";
    assert Spell(Sub(Base("f"), Item, 1)) == "f_1";
  }

  /** A submission: the non-file part `data` and the uploaded `files`. */
  predicate Present<D, F>(data: map<Name, D>, files: map<Name, F>, n: Name) {
    n in data || n in files
  }

  function Submitted<D, F>(data: map<Name, D>, files: map<Name, F>): (keys: set<Name>)
    ensures forall n :: n in keys <==> Present(data, files, n)
    ensures |keys| <= |data| + |files|
  {
    var keys := data.Keys + files.Keys;
    assert |keys| + |data.Keys * files.Keys| == |data.Keys| + |files.Keys|;
    keys
  }

  /** A sub-widget's `value_from_datadict(data, files, name)`. */
  type Extractor<-D, -F, V> = (map<Name, D>, map<Name, F>, Name) -> Option<V>

  /** `data.get(name)`: what a plain text or hidden input reads back. */
  function Lookup<D, F>(data: map<Name, D>, files: map<Name, F>, n: Name): (r: Option<D>)
    ensures r.Some? <==> n in data
    ensures r.Some? ==> r.value == data[n]
  {
    if n in data then Some(data[n]) else None
  }

  /** A sub-widget that reads nothing but the entries stored under its own name. */
  ghost predicate Local<D(!new), F(!new), V>(w: Extractor<D, F, V>) {
    forall d1: map<Name, D>, f1: map<Name, F>, d2: map<Name, D>, f2: map<Name, F>, n: Name ::
      SameAt(d1, d2, n) && SameAt(f1, f2, n) ==> w(d1, f1, n) == w(d2, f2, n)
  }

  ghost predicate SameAt<T>(m1: map<Name, T>, m2: map<Name, T>, n: Name) {
    (n in m1 <==> n in m2) && (n in m1 ==> m1[n] == m2[n])
  }

  /** A local sub-widget reads the same value from two submissions that agree
      on its own name. */
  lemma LocalRead<D(!new), F(!new), V>(widget: Extractor<D, F, V>, d1: map<Name, D>, f1: map<Name, F>,
                                       d2: map<Name, D>, f2: map<Name, F>, n: Name)
    requires Local(widget)
    requires SameAt(d1, d2, n) && SameAt(f1, f2, n)
    ensures widget(d1, f1, n) == widget(d2, f2, n)
  {
  }

  /** Membership in the framework's EMPTY_VALUES: `None` always belongs,
      and `isEmpty` decides for every other value (`''`, `[]`, `()`, `{}`). */
  predicate Empty<V>(isEmpty: V -> bool, v: Option<V>) {
    v.None? || isEmpty(v.value)
  }

  /** One call of a sub-widget's `render`: the name, the `id` attribute and
      the value it is handed. */
  datatype Slot<E> = Slot(name: Name, id: Option<string>, value: E)

  /** The data a browser posts back for rendered slots: each value under its
      slot's name, a later slot winning over an earlier one of the same name
      (as the framework's `QueryDict.get` returns the last value). */
  function Post<E>(slots: seq<Slot<E>>): map<Name, E> {
    if slots == [] then map[]
    else
      var last := slots[|slots| - 1];
      Post(slots[..|slots| - 1])[last.name := last.value]
  }

  /** A run of indexed sub-fields that a decoder walks from index 0:
      the `kind` sub-fields of `parent`, or the first part of each item of
      `parent` (`name_i_0`). */
  datatype Family = Indexed(parent: Name, kind: Kind) | FirstParts(parent: Name)

  function At(f: Family, j: nat): Name {
    match f
    case Indexed(p, k) => Sub(p, k, j)
    case FirstParts(p) => Sub(Sub(p, Item, j), Item, 0)
  }

  /** The index of `n` within the run `f`, if `n` belongs to it. */
  function IndexIn(f: Family, n: Name): (r: Option<nat>)
    ensures r.Some? ==> At(f, r.value) == n
  {
    match f
    case Indexed(p, k) =>
      if n.Sub? && n.parent == p && n.kind == k then Some(n.index) else None
    case FirstParts(p) =>
      if n.Sub? && n.kind == Item && n.index == 0
         && n.parent.Sub? && n.parent.parent == p && n.parent.kind == Item
      then Some(n.parent.index) else None
  }

  predicate FromIndex(f: Family, n: Name, from: nat) {
    IndexIn(f, n).Some? && from <= IndexIn(f, n).value
  }

  /** The submitted names of run `f` at index `from` or later: the measure
      every decoding scan decreases. */
  function Remaining(keys: set<Name>, f: Family, from: nat): set<Name> {
    set n | n in keys && FromIndex(f, n, from)
  }

  lemma RemainingShrinks(keys: set<Name>, f: Family, from: nat)
    requires At(f, from) in keys
    ensures Remaining(keys, f, from + 1) < Remaining(keys, f, from)
    ensures |Remaining(keys, f, from + 1)| < |Remaining(keys, f, from)|
  {
    assert IndexIn(f, At(f, from)) == Some(from);
    assert Remaining(keys, f, from) == Remaining(keys, f, from + 1) + {At(f, from)};
  }

  /** The first index at or after `from` whose name of run `f` was not
      submitted: where a scan from `from` stops. */
  function Gap(keys: set<Name>, f: Family, from: nat): (g: nat)
    ensures from <= g
    ensures At(f, g) !in keys
    ensures forall j :: from <= j < g ==> At(f, j) in keys
    decreases Remaining(keys, f, from)
  {
    if At(f, from) in keys then
      RemainingShrinks(keys, f, from);
      Gap(keys, f, from + 1)
    else
      from
  }

  /** Starting inside the contiguous run, a scan stops at the same gap. */
  lemma {:induction false} GapFromInside(keys: set<Name>, f: Family, i: nat, j: nat)
    requires i <= j <= Gap(keys, f, i)
    ensures Gap(keys, f, j) == Gap(keys, f, i)
    decreases j - i
  {
    if i < j {
      assert At(f, i) in keys;
      GapFromInside(keys, f, i + 1, j);
    }
  }

  /** A scan from `from` passes at most as many names as remain of the run. */
  lemma {:induction false} GapBound(keys: set<Name>, f: Family, from: nat)
    ensures Gap(keys, f, from) - from <= |Remaining(keys, f, from)|
    decreases Remaining(keys, f, from)
  {
    if At(f, from) in keys {
      RemainingShrinks(keys, f, from);
      GapBound(keys, f, from + 1);
    }
  }

  /** A scan never walks further than there are submitted names. */
  lemma GapWithinSubmission(keys: set<Name>, f: Family)
    ensures Gap(keys, f, 0) <= |keys|
  {
    GapBound(keys, f, 0);
    var r := Remaining(keys, f, 0);
    assert keys == r + (keys - r);
  }
}
