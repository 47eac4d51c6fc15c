/** NamedList: a fixed-length record of named values, as defined (identically) in
    threading-progress/progress.py and threading-progress/progress2.py.

    The instance is modelled by its two pieces of state: the index-to-name table
    (`order`, the `__no` dictionary) and the instance attributes (`attrs`). A name
    that was never assigned is absent from `attrs`; a name padded by `map(None, ...)`
    is present and bound to `None`. */
module NamedLists {
  import opened Py

  /** Instance attributes: attribute name to the value it is bound to. */
  type Attrs<V> = map<string, Option<V>>

  datatype NamedList<V> = NamedList(order: seq<string>, attrs: Attrs<V>) {
    /** `len()` of the list: the number of declared names. */
    function Len(): nat { |order| }
  }

  /** The marker the constructor refuses as a name prefix. */
  predicate StartsWithDunder(name: string) {
    |name| >= 2 && name[0] == '_' && name[1] == '_'
  }

  /** A name the constructor refuses, given the instance's own attribute names. */
  predicate IsReserved(name: string, reserved: set<string>) {
    StartsWithDunder(name) || name in reserved
  }

  function Reverse<T>(s: seq<T>): (r: seq<T>)
    ensures |r| == |s|
    ensures forall i :: 0 <= i < |s| ==> r[i] == s[|s| - 1 - i]
  {
    if |s| == 0 then [] else Reverse(s[1..]) + [s[0]]
  }

  /** The binding loop: `setattr` over `map(None, names, values)`, which pads the
      shorter sequence with `None` and stops at the first padded name. */
  function Bind<V>(attrs: Attrs<V>, names: seq<string>, values: seq<Option<V>>): Attrs<V>
    decreases |names|
  {
    if |names| == 0 then attrs
    else if |values| == 0 then Bind(attrs[names[0] := None], names[1..], [])
    else Bind(attrs[names[0] := values[0]], names[1..], values[1..])
  }

  /** `NamedList(names, values, tail)`; `reserved` stands for the attribute names
      `_fieldnames` reports for a fresh instance. */
  function Construct<V>(names: seq<string>, values: Option<seq<Option<V>>>, tail: bool,
                        reserved: set<string>): (r: Result<NamedList<V>>)
    ensures r.Success? <==> |names| > 0 && forall i :: 0 <= i < |names| ==> !IsReserved(names[i], reserved)
    ensures r.Failure? && (exists i :: 0 <= i < |names| && IsReserved(names[i], reserved)) ==> r.error == TypeError
    ensures |names| == 0 ==> r == Failure(UnboundLocalError)
    ensures r.Success? ==> r.value.order == names && r.value.Len() == |names|
  {
    if exists i :: 0 <= i < |names| && IsReserved(names[i], reserved) then
      // the error message has two `%s` and one argument: formatting raises
      Failure(TypeError)
    else if |names| == 0 then
      // the loop never ran, so `index` is unbound when the length is computed
      Failure(UnboundLocalError)
    else
      match values
      case None => Success(NamedList(names, map[]))
      case Some(vs) =>
        var attrs := if tail then Bind(map[], Reverse(names), Reverse(vs)) else Bind(map[], names, vs);
        Success(NamedList(names, attrs))
  }

  /** `nl[index]`. */
  function GetItem<V>(nl: NamedList<V>, index: int): Result<Option<V>> {
    if index >= nl.Len() then Failure(IndexError)
    else if index < 0 then Failure(KeyError)   // `__no` is a dict keyed 0 .. len-1
    else GetAttr(nl, nl.order[index])
  }

  /** `getattr(nl, name)` for an instance attribute. */
  function GetAttr<V>(nl: NamedList<V>, name: string): Result<Option<V>> {
    if name in nl.attrs then Success(nl.attrs[name]) else Failure(AttributeError)
  }

  /** `setattr(nl, name, value)`: any name may be set; the order table is untouched. */
  function SetAttr<V>(nl: NamedList<V>, name: string, value: Option<V>): (r: NamedList<V>)
    ensures r.order == nl.order && r.Len() == nl.Len()
    ensures GetAttr(r, name) == Success(value)
    ensures forall other :: other != name ==> GetAttr(r, other) == GetAttr(nl, other)
  {
    NamedList(nl.order, nl.attrs[name := value])
  }

  /** The positional arguments `func(*nl)` receives: the values in declaration
      order, or the `AttributeError` of the first unbound name. */
  function Items<V>(nl: NamedList<V>): Result<seq<Option<V>>> {
    ItemsFrom(nl, 0)
  }

  function ItemsFrom<V>(nl: NamedList<V>, i: nat): (r: Result<seq<Option<V>>>)
    requires i <= nl.Len()
    ensures r.Success? ==> |r.value| == nl.Len() - i
    ensures r.Success? ==> forall k :: 0 <= k < |r.value| ==> GetItem(nl, i + k) == Success(r.value[k])
    ensures r.Failure? ==> r.error == AttributeError
    ensures r.Failure? <==> exists k :: i <= k < nl.Len() && nl.order[k] !in nl.attrs
    decreases nl.Len() - i
  {
    if i == nl.Len() then Success([])
    else if nl.order[i] !in nl.attrs then Failure(AttributeError)
    else
      var rest :- ItemsFrom(nl, i + 1);
      Success([nl.attrs[nl.order[i]]] + rest)
  }

  /** `iter(nl)`: the generator yields `nl[0]`, `nl[1]`, ... and stops with an
      `AttributeError` at the first name that is not bound. */
  method Iterate<V>(nl: NamedList<V>) returns (yielded: seq<Option<V>>, failed: bool)
    ensures |yielded| <= nl.Len()
    ensures forall i :: 0 <= i < |yielded| ==> GetItem(nl, i) == Success(yielded[i])
    ensures failed <==> |yielded| < nl.Len()
    ensures failed ==> GetItem(nl, |yielded|) == Failure(AttributeError)
    ensures !failed ==> Items(nl) == Success(yielded)
  {
    yielded := [];
    var i := 0;
    while i < nl.Len()
      invariant 0 <= i <= nl.Len()
      invariant |yielded| == i
      invariant forall k :: 0 <= k < i ==> GetItem(nl, k) == Success(yielded[k])
    {
      var name := nl.order[i];
      if name !in nl.attrs {
        return yielded, true;
      }
      yielded := yielded + [nl.attrs[name]];
      i := i + 1;
    }
    failed := false;
    ItemsMatch(nl, yielded);
  }

  /** Whenever every position reads back as `yielded`, `Items` is `yielded`. */
  lemma {:induction false} ItemsMatch<V>(nl: NamedList<V>, yielded: seq<Option<V>>)
    requires |yielded| == nl.Len()
    requires forall k :: 0 <= k < |yielded| ==> GetItem(nl, k) == Success(yielded[k])
    ensures Items(nl) == Success(yielded)
  {
    forall k | 0 <= k < nl.Len() ensures nl.order[k] in nl.attrs {
      assert GetItem(nl, k) == Success(yielded[k]);
    }
    var r := ItemsFrom(nl, 0);
    assert |r.value| == |yielded|;
    forall k | 0 <= k < |yielded| ensures r.value[k] == yielded[k] {
      assert GetItem(nl, k) == Success(r.value[k]);
    }
    assert r.value == yielded;
  }

  // ---------------------------------------------------------------------------
  // The binding policy

  /** With distinct names, `Bind` gives name `i` the `i`-th value, or `None` when
      the values have run out; other attributes are untouched. */
  lemma {:induction false} BindValues<V>(attrs: Attrs<V>, names: seq<string>, values: seq<Option<V>>)
    requires Distinct(names)
    ensures Bind(attrs, names, values).Keys == attrs.Keys + set n | n in names
    ensures forall i :: 0 <= i < |names| ==>
              Bind(attrs, names, values)[names[i]] == (if i < |values| then values[i] else None)
    ensures forall n :: n in attrs && n !in names ==> Bind(attrs, names, values)[n] == attrs[n]
    decreases |names|
  {
    if |names| > 0 {
      var v := if |values| == 0 then None else values[0];
      var rest := if |values| == 0 then [] else values[1..];
      assert Distinct(names[1..]);
      BindValues(attrs[names[0] := v], names[1..], rest);
      var b := Bind(attrs, names, values);
      assert b == Bind(attrs[names[0] := v], names[1..], rest);
      assert names == [names[0]] + names[1..];
      forall i | 0 <= i < |names|
        ensures b[names[i]] == (if i < |values| then values[i] else None)
      {
        if i > 0 {
          assert names[i] == names[1..][i - 1];
        }
      }
    }
  }

  /** Whatever the names, supplying values binds every declared name. */
  lemma {:induction false} BindCoversNames<V>(attrs: Attrs<V>, names: seq<string>, values: seq<Option<V>>)
    ensures Bind(attrs, names, values).Keys == attrs.Keys + set n | n in names
    decreases |names|
  {
    if |names| > 0 {
      var v := if |values| == 0 then None else values[0];
      var rest := if |values| == 0 then [] else values[1..];
      BindCoversNames(attrs[names[0] := v], names[1..], rest);
      assert names == [names[0]] + names[1..];
    }
  }

  lemma ReverseDistinct<T>(s: seq<T>)
    requires Distinct(s)
    ensures Distinct(Reverse(s))
  {
  }

  lemma ReverseSameElements<T>(s: seq<T>)
    ensures (set x | x in Reverse(s)) == set x | x in s
  {
    var r := Reverse(s);
    forall x | x in s ensures x in r {
      var i :| 0 <= i < |s| && s[i] == x;
      assert r[|s| - 1 - i] == x;
    }
  }

  /** Head fill: name `i` gets `values[i]`; names beyond the values get `None`;
      surplus values are dropped. */
  lemma HeadFill<V>(names: seq<string>, values: seq<Option<V>>, reserved: set<string>)
    requires Distinct(names)
    requires Construct(names, Some(values), false, reserved).Success?
    ensures var nl := Construct(names, Some(values), false, reserved).value;
            forall i :: 0 <= i < |names| ==>
              GetItem(nl, i) == Success(if i < |values| then values[i] else None)
  {
    BindValues(map[], names, values);
  }

  /** Tail fill: with `n` names and `k` values, name `i` gets `values[i + k - n]`
      when that index exists and `None` otherwise. So for `k <= n` the last `k` names
      get the values in order and the first `n - k` get `None`; for `k > n` only the
      last `n` values are used. */
  lemma TailFill<V>(names: seq<string>, values: seq<Option<V>>, reserved: set<string>)
    requires Distinct(names)
    requires Construct(names, Some(values), true, reserved).Success?
    ensures var nl := Construct(names, Some(values), true, reserved).value;
            forall i :: 0 <= i < |names| ==>
              GetItem(nl, i) == Success(if i + |values| - |names| >= 0 then values[i + |values| - |names|] else None)
  {
    var n, k := |names|, |values|;
    var rn, rv := Reverse(names), Reverse(values);
    ReverseDistinct(names);
    BindValues(map[], rn, rv);
    var nl := Construct(names, Some(values), true, reserved).value;
    assert nl.attrs == Bind(map[], rn, rv);
    forall i | 0 <= i < n
      ensures GetItem(nl, i) == Success(if i + k - n >= 0 then values[i + k - n] else None)
    {
      var j := n - 1 - i;
      assert rn[j] == names[i];
      assert nl.attrs[rn[j]] == (if j < k then rv[j] else None);
    }
  }

  /** Supplying values (head or tail) binds every declared name, even when the
      names repeat; so no position of the list reads as `AttributeError`. */
  lemma ValuesBindAll<V>(names: seq<string>, values: seq<Option<V>>, tail: bool, reserved: set<string>)
    requires Construct(names, Some(values), tail, reserved).Success?
    ensures var nl := Construct(names, Some(values), tail, reserved).value;
            forall i :: 0 <= i < |names| ==> GetItem(nl, i).Success?
  {
    if tail {
      BindCoversNames(map[], Reverse(names), Reverse(values));
      ReverseSameElements(names);
    } else {
      BindCoversNames(map[], names, values);
    }
  }

  /** `values=None` binds nothing: every position reads as `AttributeError`. */
  lemma NoValuesBindNothing<V>(names: seq<string>, tail: bool, reserved: set<string>)
    requires Construct<V>(names, None, tail, reserved).Success?
    ensures var nl := Construct<V>(names, None, tail, reserved).value;
            nl.attrs == map[] &&
            (forall i :: 0 <= i < |names| ==> GetItem(nl, i) == Failure(AttributeError)) &&
            Items(nl) == Failure(AttributeError)
  {
  }

  /** Indexed access: `IndexError` exactly from `len` upwards, `KeyError` below 0. */
  lemma IndexBounds<V>(nl: NamedList<V>, index: int)
    ensures GetItem(nl, index) == Failure(IndexError) <==> index >= nl.Len()
    ensures index < 0 ==> GetItem(nl, index) == Failure(KeyError)
    ensures 0 <= index < nl.Len() ==> GetItem(nl, index) == GetAttr(nl, nl.order[index])
  {
  }
}
