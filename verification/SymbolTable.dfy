/** The scoped symbol table that maps ONNX names to values. */
module SymbolTable {
  import opened Wrappers
  import opened OnnxModel

  /** Identifies a scope: the name of a graph, or of a call by node, operator and function. */
  datatype ScopeId = GraphScope(name: string) | CallScope(node: string, op: string, functionName: string)

  /** One variable scope; a table is a sequence of scopes from outermost to innermost. */
  datatype Scope<T> = Scope(identifier: ScopeId, names: map<Name, T>)

  /** Scopes are searched from the outermost inwards. */
  function Lookup<T>(scopes: seq<Scope<T>>, name: Name): Option<T> {
    if scopes == [] then None
    else if name in scopes[0].names then Some(scopes[0].names[name])
    else Lookup(scopes[1..], name)
  }

  /** Everything the table resolves, as one map. */
  function Bindings<T>(scopes: seq<Scope<T>>): map<Name, T> {
    if scopes == [] then map[] else Bindings(scopes[1..]) + scopes[0].names
  }

  function Add<T>(scopes: seq<Scope<T>>, name: Name, value: T): seq<Scope<T>>
    requires scopes != []
  {
    var last := |scopes| - 1;
    scopes[last := Scope(scopes[last].identifier, scopes[last].names[name := value])]
  }

  function Push<T>(scopes: seq<Scope<T>>, identifier: ScopeId): seq<Scope<T>> {
    scopes + [Scope(identifier, map[])]
  }

  lemma {:induction false} LookupIsBinding<T>(scopes: seq<Scope<T>>, name: Name)
    ensures Lookup(scopes, name) == if name in Bindings(scopes) then Some(Bindings(scopes)[name]) else None
  {
    if scopes != [] {
      LookupIsBinding(scopes[1..], name);
    }
  }

  lemma {:induction false} PushKeepsBindings<T>(scopes: seq<Scope<T>>, identifier: ScopeId)
    ensures Bindings(Push(scopes, identifier)) == Bindings(scopes)
  {
    if scopes != [] {
      PushKeepsBindings(scopes[1..], identifier);
      assert Push(scopes, identifier)[1..] == Push(scopes[1..], identifier);
    } else {
      assert Bindings(Push(scopes, identifier)) == Bindings<T>([]) + map[];
    }
  }

  lemma MergeAssociates<T>(a: map<Name, T>, b: map<Name, T>, c: map<Name, T>)
    ensures (a + b) + c == a + (b + c)
  {
  }

  /** A new name becomes visible; a name that was visible keeps the value it had, whatever is added. */
  lemma {:induction false} AddBindings<T>(scopes: seq<Scope<T>>, name: Name, value: T)
    requires scopes != [] && name !in scopes[|scopes| - 1].names
    ensures Bindings(Add(scopes, name, value)) == map[name := value] + Bindings(scopes)
  {
    var added := Add(scopes, name, value);
    if |scopes| > 1 {
      AddBindings(scopes[1..], name, value);
      assert added[0] == scopes[0] && added[1..] == Add(scopes[1..], name, value);
      assert Bindings(added) == Bindings(added[1..]) + scopes[0].names;
      assert Bindings(scopes) == Bindings(scopes[1..]) + scopes[0].names;
      MergeAssociates(map[name := value], Bindings(scopes[1..]), scopes[0].names);
    } else {
      assert scopes[1..] == [] && added[1..] == [];
      assert Bindings(scopes) == scopes[0].names;
      assert Bindings(added) == scopes[0].names[name := value];
    }
  }

  /** An added object is found again exactly when its name was not yet visible, or already stood for that object. */
  lemma AddedIsFoundIffNotShadowed<T>(scopes: seq<Scope<T>>, name: Name, value: T)
    requires scopes != [] && name !in scopes[|scopes| - 1].names
    ensures Lookup(Add(scopes, name, value), name) == Some(value) <==>
            Lookup(scopes, name) == None || Lookup(scopes, name) == Some(value)
    ensures forall other :: other != name ==> Lookup(Add(scopes, name, value), other) == Lookup(scopes, other)
  {
    AddBindings(scopes, name, value);
    LookupIsBinding(scopes, name);
    LookupIsBinding(Add(scopes, name, value), name);
    forall other | other != name ensures Lookup(Add(scopes, name, value), other) == Lookup(scopes, other) {
      LookupIsBinding(scopes, other);
      LookupIsBinding(Add(scopes, name, value), other);
    }
  }

  class SymbolMapping<T> {
    var scopes: seq<Scope<T>>

    constructor ()
      ensures scopes == []
    {
      scopes := [];
    }

    method GetByOnnxName(name: Name) returns (value: Option<T>)
      ensures value == Lookup(scopes, name)
    {
      for i := 0 to |scopes|
        invariant Lookup(scopes, name) == Lookup(scopes[i..], name)
      {
        assert scopes[i..][1..] == scopes[i + 1..];
        if name in scopes[i].names {
          return Some(scopes[i].names[name]);
        }
      }
      return None;
    }

    method AddMapping(name: Name, value: T)
      requires scopes != [] && name !in scopes[|scopes| - 1].names
      modifies this
      ensures scopes == Add(old(scopes), name, value)
    {
      var last := |scopes| - 1;
      scopes := scopes[last := Scope(scopes[last].identifier, scopes[last].names[name := value])];
    }

    method PushScope(identifier: ScopeId)
      modifies this
      ensures scopes == Push(old(scopes), identifier)
    {
      scopes := scopes + [Scope(identifier, map[])];
    }

    method PopScope(identifier: ScopeId)
      requires scopes != [] && scopes[|scopes| - 1].identifier == identifier
      modifies this
      ensures scopes == old(scopes)[..|old(scopes)| - 1]
    {
      scopes := scopes[..|scopes| - 1];
    }
  }
}
