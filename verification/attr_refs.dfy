/** `_AttributeReference` and `_CreateParentMixin` (threading-progress/progress.py:373-428):
    per-argument data descriptors on a synthesised class, each forwarding to one
    attribute of the NamedList. Object identity is modelled by `ObjId`s into a heap
    of NamedLists, so that "the same referred object" is expressible. */
module AttrRefs {
  import opened Py
  import opened NamedLists

  type ObjId = nat

  type Heap<V> = map<ObjId, NamedList<V>>

  /** A descriptor: the referred object and the attribute name it forwards. */
  datatype AttributeReference = AttributeReference(ref: ObjId, name: string)

  /** The `instance` argument of `__get__` / `__set__`: `None` on class access. */
  datatype Instance = NoInstance | SomeInstance

  /** `__get__`: class access raises the module's `TypeError`; otherwise the
      referred object's attribute of that name is read. */
  function DescriptorGet<V>(d: AttributeReference, inst: Instance, heap: Heap<V>): (r: Result<Option<V>>)
    requires d.ref in heap
    ensures inst == NoInstance ==> r == Failure(TypeError)
    ensures inst == SomeInstance ==> r == GetAttr(heap[d.ref], d.name)
  {
    if inst == NoInstance then Failure(TypeError) else GetAttr(heap[d.ref], d.name)
  }

  /** `__set__`: class access raises `TypeError`; otherwise the referred object's
      attribute is written and no other object changes. */
  function DescriptorSet<V>(d: AttributeReference, inst: Instance, heap: Heap<V>, value: Option<V>): (r: Result<Heap<V>>)
    requires d.ref in heap
    ensures inst == NoInstance <==> r == Failure(TypeError)
    ensures r.Success? ==> r.value.Keys == heap.Keys
    ensures r.Success? ==> r.value[d.ref] == SetAttr(heap[d.ref], d.name, value)
    ensures r.Success? ==> forall id :: id in heap && id != d.ref ==> r.value[id] == heap[id]
  {
    if inst == NoInstance then Failure(TypeError)
    else Success(heap[d.ref := SetAttr(heap[d.ref], d.name, value)])
  }

  /** The loop filling the class dictionary: one descriptor per name, later
      assignments to a repeated name overwriting earlier ones. */
  function AddReferences(dict: map<string, AttributeReference>, ref: ObjId, names: seq<string>)
    : (r: map<string, AttributeReference>)
    ensures r.Keys == dict.Keys + set n | n in names
    ensures forall n :: n in names ==> r[n] == AttributeReference(ref, n)
    ensures forall n :: n in dict && n !in names ==> r[n] == dict[n]
    decreases |names|
  {
    if |names| == 0 then dict
    else
      var r := AddReferences(dict[names[0] := AttributeReference(ref, names[0])], ref, names[1..]);
      assert names == [names[0]] + names[1..];
      r
  }

  /** `_CreateParentMixin(ref, names)`: the class dictionary of the synthesised class. */
  function CreateParentMixin(ref: ObjId, names: seq<string>): (r: map<string, AttributeReference>)
    ensures r.Keys == set n | n in names
    ensures forall n :: n in r ==> r[n].name == n && r[n].ref == ref
  {
    AddReferences(map[], ref, names)
  }

  /** Reading an argument through the mixin is reading it on the referred object. */
  lemma MixinReadsReferredObject<V>(ref: ObjId, names: seq<string>, heap: Heap<V>, n: string)
    requires ref in heap && n in names
    ensures DescriptorGet(CreateParentMixin(ref, names)[n], SomeInstance, heap) == GetAttr(heap[ref], n)
  {
  }

  /** Writing an argument through the mixin, then reading any argument through it,
      sees the write and nothing else changed. */
  lemma MixinWriteThenRead<V>(ref: ObjId, names: seq<string>, heap: Heap<V>, n: string, m: string, value: Option<V>)
    requires ref in heap && n in names && m in names
    ensures var mixin := CreateParentMixin(ref, names);
            var heap' := DescriptorSet(mixin[n], SomeInstance, heap, value).value;
            DescriptorGet(mixin[m], SomeInstance, heap') ==
              (if m == n then Success(value) else DescriptorGet(mixin[m], SomeInstance, heap))
  {
    var mixin := CreateParentMixin(ref, names);
    var heap' := DescriptorSet(mixin[n], SomeInstance, heap, value).value;
    assert heap'[ref] == SetAttr(heap[ref], n, value);
  }
}
