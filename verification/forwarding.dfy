/** `_ForwardAttributesMixin` (threading-progress/progress2.py:376-459): attribute
    reads and writes on the runner that are routed to the NamedList of arguments.
    Only the routing outcome is modelled; `progress2.Progress` is an old-style class,
    so a normal lookup tries the instance dictionary first, then the class. */
module Forwarding {
  import opened Py
  import opened NamedLists

  /** What `__init__` stores under the mangled names `__ref` and `__names`. */
  datatype Link<V> = Link(names: seq<string>, target: NamedList<V>)

  /** An instance using the mixin: its own `__dict__` (less the two mangled entries),
      the attributes its class provides, and the forwarding link once `__init__` has run. */
  datatype Forwarder<V> = Forwarder(local: Attrs<V>, classAttrs: Attrs<V>, link: Option<Link<V>>)

  /** `__setattr__` forwards a name that is not in `self.__dir()` (class attributes
      and instance dictionary) and is one of the forwarded names. */
  predicate Forwards<V>(f: Forwarder<V>, name: string) {
    name !in f.classAttrs && name !in f.local && f.link.Some? && name in f.link.value.names
  }

  /** `getattr(self, name)`: normal lookup, then `__getattr__`. Before `__init__`
      has stored the link the hook falls off its end and the read yields `None`. */
  function Get<V>(f: Forwarder<V>, name: string): Result<Option<V>> {
    if name in f.local then Success(f.local[name])
    else if name in f.classAttrs then Success(f.classAttrs[name])
    else match f.link
      case None => Success(None)
      case Some(link) =>
        if name in link.names then GetAttr(link.target, name) else Failure(AttributeError)
  }

  /** `setattr(self, name, value)`. */
  function Set<V>(f: Forwarder<V>, name: string, value: Option<V>): (r: Forwarder<V>)
    ensures r.classAttrs == f.classAttrs
    ensures Forwards(f, name) ==>
              r.local == f.local && r.link.Some? && r.link.value.names == f.link.value.names &&
              r.link.value.target == SetAttr(f.link.value.target, name, value)
    ensures !Forwards(f, name) ==> r.local == f.local[name := value] && r.link == f.link
  {
    if Forwards(f, name) then
      f.(link := Some(Link(f.link.value.names, SetAttr(f.link.value.target, name, value))))
    else
      f.(local := f.local[name := value])
  }

  /** A missing name is read from the referred object when it is forwarded, and
      raises `AttributeError` otherwise. */
  lemma MissingNameRouting<V>(f: Forwarder<V>, name: string)
    requires name !in f.local && name !in f.classAttrs && f.link.Some?
    ensures name in f.link.value.names ==> Get(f, name) == GetAttr(f.link.value.target, name)
    ensures name !in f.link.value.names ==> Get(f, name) == Failure(AttributeError)
  {
  }

  /** Whatever route a write takes, reading the name back yields the written value. */
  lemma SetThenGet<V>(f: Forwarder<V>, name: string, value: Option<V>)
    ensures Get(Set(f, name, value), name) == Success(value)
  {
  }

  /** A write changes the reading of no other name. */
  lemma SetLeavesOthers<V>(f: Forwarder<V>, name: string, other: string, value: Option<V>)
    requires other != name
    ensures Get(Set(f, name, value), other) == Get(f, other)
  {
    if Forwards(f, name) {
      var t := f.link.value.target;
      assert GetAttr(SetAttr(t, name, value), other) == GetAttr(t, other);
    }
  }

  /** A forwarded name stays forwarded: writing it never creates a local attribute,
      so every later write reaches the referred object too. */
  lemma ForwardingPersists<V>(f: Forwarder<V>, name: string, value: Option<V>)
    requires Forwards(f, name)
    ensures Forwards(Set(f, name, value), name)
    ensures Set(f, name, value).local == f.local
  {
  }
}
