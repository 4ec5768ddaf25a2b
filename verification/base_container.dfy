/** `BaseContainerWidget`: what every container widget shares, namely how the
    container's `id` attribute is passed down to its sub-widgets and which
    element its `<label>` points at. */
module BaseContainer {
  import opened FormData

  /** Python truthiness of the `id` attribute: present and non-empty. */
  predicate Truthy(id: Option<string>) {
    id.Some? && id.value != ""
  }

  /** The `id` attribute handed to the sub-widget of `kind` at index `i`:
      the container's id followed by the sub-field suffix when the container
      has a non-empty id, and the container's own id attribute otherwise. */
  function SubId(id: Option<string>, kind: Kind, i: nat): (r: Option<string>)
    ensures r.Some? <==> id.Some?
    ensures Truthy(id) ==> Truthy(r) && id.value < r.value
    ensures !Truthy(id) ==> r == id
  {
    if Truthy(id) then
      var s := Spell(Sub(Base(id.value), kind, i));
      assert Spell(Base(id.value)) == id.value;
      assert s == id.value + Infix(kind) + Decimal(i);
      assert s == id.value + (Infix(kind) + Decimal(i));
      Some(s)
    else id
  }

  /** `id_for_label`: a non-empty id gets the suffix `_0`; an empty or
      missing id comes back unchanged. */
  function IdForLabel(id: Option<string>): (r: Option<string>)
    ensures Truthy(id) ==> r == Some(id.value + "_0")
    ensures !Truthy(id) ==> r == id
  {
    if Truthy(id) then Some(id.value + "_0") else id
  }

  /** The label points at the first item sub-widget: its id is exactly the
      one a container hands to the sub-field at index 0 of kind `Item`. */
  lemma LabelIsFirstItemId(id: Option<string>)
    ensures IdForLabel(id) == SubId(id, Item, 0)
  {
    if Truthy(id) {
      assert Decimal(0) == "0";
      assert Spell(Sub(Base(id.value), Item, 0)) == id.value + "_" + "0";
      assert id.value + "_" + "0" == id.value + "_0";
    }
  }
}
