/**
 * What registering one class's methods does to the route table:
 * `parseClassMethods` with `storeResourceMappingOrThrowIfAlreadyPresent`,
 * stated as a function over a table value.
 */
module Registry {
  import opened Wrappers
  import opened Types

  /** The key a mapping is stored under: its method and its sanitized path. */
  function KeyOf(m: Mapping, sanitize: string -> string): (k: RouteKey)
    ensures k.httpMethod == m.httpMethod && k.path == sanitize(m.resourcePath)
  {
    RouteKey(m.httpMethod, sanitize(m.resourcePath))
  }

  /**
   * Two mappings collide, and so compete for one entry, exactly when they have
   * the same method and the same sanitized path; paths that differ only in
   * what the sanitizer removes collide.
   */
  lemma KeysCollide(a: Mapping, b: Mapping, sanitize: string -> string)
    ensures KeyOf(a, sanitize) == KeyOf(b, sanitize) <==>
      a.httpMethod == b.httpMethod && sanitize(a.resourcePath) == sanitize(b.resourcePath)
  {
  }

  /** The table after a class's methods, and the mapping whose conflict stopped them, if any. */
  datatype Registration = Registration(table: Table, conflict: Option<Mapping>)

  /**
   * Walks `methods` in order. A method without a mapping is passed over; a
   * mapping whose key is free is stored with `owner`; a mapping whose key is
   * taken raises the conflict and the remaining methods are not looked at.
   */
  function Register(t: Table, owner: string, methods: seq<MethodInfo>, sanitize: string -> string): (r: Registration)
    ensures r.conflict.Some? ==> KeyOf(r.conflict.value, sanitize) in r.table
    ensures r.conflict.Some? ==> exists i :: Annotated(methods, i) && methods[i].mapping == r.conflict
    decreases |methods|
  {
    if methods == [] then Registration(t, None)
    else match methods[0].mapping
      case None => Register(t, owner, methods[1..], sanitize)
      case Some(m) =>
        var k := KeyOf(m, sanitize);
        if k in t then Registration(t, Some(m))
        else Register(t[k := RouteTarget(owner, methods[0].name)], owner, methods[1..], sanitize)
  }

  /** `methods[i]` carries a mapping. */
  predicate Annotated(methods: seq<MethodInfo>, i: int)
  {
    0 <= i < |methods| && methods[i].mapping.Some?
  }

  /** The key of the mapping of an annotated method. */
  function KeyAt(methods: seq<MethodInfo>, i: int, sanitize: string -> string): RouteKey
    requires Annotated(methods, i)
  {
    KeyOf(methods[i].mapping.value, sanitize)
  }

  /** `u` holds every entry of `t`, unchanged. */
  predicate Extends(u: Table, t: Table)
  {
    forall k :: k in t ==> k in u && u[k] == t[k]
  }

  /**
   * No annotated method's key is in `t`, and no two annotated methods share a
   * key: exactly the condition under which registration meets no conflict.
   */
  ghost predicate FreshKeys(t: Table, methods: seq<MethodInfo>, sanitize: string -> string)
  {
    && (forall i :: Annotated(methods, i) ==> KeyAt(methods, i, sanitize) !in t)
    && (forall i, j :: Annotated(methods, i) && Annotated(methods, j) && i < j ==>
          KeyAt(methods, i, sanitize) != KeyAt(methods, j, sanitize))
  }

  /** Registering a concatenation is registering the first part, then, without a conflict, the second. */
  lemma {:induction false} RegisterAppend(t: Table, owner: string, a: seq<MethodInfo>, b: seq<MethodInfo>, sanitize: string -> string)
    ensures Register(t, owner, a + b, sanitize) ==
      var ra := Register(t, owner, a, sanitize);
      if ra.conflict.Some? then ra else Register(ra.table, owner, b, sanitize)
    decreases |a|
  {
    if a == [] {
      assert a + b == b;
    } else {
      assert (a + b)[0] == a[0];
      assert (a + b)[1..] == a[1..] + b;
      match a[0].mapping
      case None =>
        RegisterAppend(t, owner, a[1..], b, sanitize);
      case Some(m) =>
        var k := KeyOf(m, sanitize);
        if k !in t {
          RegisterAppend(t[k := RouteTarget(owner, a[0].name)], owner, a[1..], b, sanitize);
        }
    }
  }

  /** The table never loses a key and never overwrites an entry. */
  lemma {:induction false} RegisterExtends(t: Table, owner: string, methods: seq<MethodInfo>, sanitize: string -> string)
    ensures Extends(Register(t, owner, methods, sanitize).table, t)
    decreases |methods|
  {
    if methods != [] {
      match methods[0].mapping
      case None =>
        RegisterExtends(t, owner, methods[1..], sanitize);
      case Some(m) =>
        var k := KeyOf(m, sanitize);
        if k !in t {
          var t' := t[k := RouteTarget(owner, methods[0].name)];
          RegisterExtends(t', owner, methods[1..], sanitize);
        }
    }
  }

  /** Methods without a mapping leave the table as it is and raise nothing. */
  lemma {:induction false} RegisterUnannotated(t: Table, owner: string, methods: seq<MethodInfo>, sanitize: string -> string)
    requires forall i :: 0 <= i < |methods| ==> methods[i].mapping.None?
    ensures Register(t, owner, methods, sanitize) == Registration(t, None)
    decreases |methods|
  {
    if methods != [] {
      RegisterUnannotated(t, owner, methods[1..], sanitize);
    }
  }

  /**
   * Every entry registration adds is the target of an annotated method of
   * `owner` stored under that method's key.
   */
  lemma {:induction false} RegisterSound(t: Table, owner: string, methods: seq<MethodInfo>, sanitize: string -> string)
    ensures var u := Register(t, owner, methods, sanitize).table;
      forall k :: k in u && k !in t ==>
        exists i :: Annotated(methods, i) && KeyAt(methods, i, sanitize) == k &&
          u[k] == RouteTarget(owner, methods[i].name)
    decreases |methods|
  {
    if methods != [] {
      var rest := methods[1..];
      var u := Register(t, owner, methods, sanitize).table;
      match methods[0].mapping
      case None =>
        RegisterSound(t, owner, rest, sanitize);
        forall k | k in u && k !in t
          ensures (exists i :: Annotated(methods, i) && KeyAt(methods, i, sanitize) == k &&
                    u[k] == RouteTarget(owner, methods[i].name))
        {
          var i :| Annotated(rest, i) && KeyAt(rest, i, sanitize) == k && u[k] == RouteTarget(owner, rest[i].name);
          assert Annotated(methods, i + 1) && methods[i + 1] == rest[i];
        }
      case Some(m) =>
        var k0 := KeyOf(m, sanitize);
        if k0 !in t {
          var t' := t[k0 := RouteTarget(owner, methods[0].name)];
          RegisterSound(t', owner, rest, sanitize);
          RegisterExtends(t', owner, rest, sanitize);
          forall k | k in u && k !in t
            ensures (exists i :: Annotated(methods, i) && KeyAt(methods, i, sanitize) == k &&
                      u[k] == RouteTarget(owner, methods[i].name))
          {
            if k == k0 {
              assert Annotated(methods, 0) && KeyAt(methods, 0, sanitize) == k;
            } else {
              var i :| Annotated(rest, i) && KeyAt(rest, i, sanitize) == k && u[k] == RouteTarget(owner, rest[i].name);
              assert Annotated(methods, i + 1) && methods[i + 1] == rest[i];
            }
          }
        }
    }
  }

  /** Registration meets no conflict exactly when the keys are fresh. */
  lemma {:induction false} RegisterSucceedsIff(t: Table, owner: string, methods: seq<MethodInfo>, sanitize: string -> string)
    ensures Register(t, owner, methods, sanitize).conflict.None? <==> FreshKeys(t, methods, sanitize)
    decreases |methods|
  {
    if methods != [] {
      var rest := methods[1..];
      assert forall i :: 0 <= i < |rest| ==> (Annotated(rest, i) <==> Annotated(methods, i + 1));
      assert forall i :: Annotated(rest, i) ==> KeyAt(rest, i, sanitize) == KeyAt(methods, i + 1, sanitize);
      match methods[0].mapping
      case None =>
        RegisterSucceedsIff(t, owner, rest, sanitize);
        if FreshKeys(t, rest, sanitize) {
          forall i, j | Annotated(methods, i) && Annotated(methods, j) && i < j
            ensures KeyAt(methods, i, sanitize) != KeyAt(methods, j, sanitize)
          {
            assert Annotated(rest, i - 1) && Annotated(rest, j - 1);
          }
          forall i | Annotated(methods, i) ensures KeyAt(methods, i, sanitize) !in t {
            assert Annotated(rest, i - 1);
          }
        }
      case Some(m) =>
        var k0 := KeyOf(m, sanitize);
        assert Annotated(methods, 0) && KeyAt(methods, 0, sanitize) == k0;
        if k0 !in t {
          var t' := t[k0 := RouteTarget(owner, methods[0].name)];
          RegisterSucceedsIff(t', owner, rest, sanitize);
          if FreshKeys(t', rest, sanitize) {
            forall i, j | Annotated(methods, i) && Annotated(methods, j) && i < j
              ensures KeyAt(methods, i, sanitize) != KeyAt(methods, j, sanitize)
            {
              assert Annotated(rest, j - 1);
              if i > 0 { assert Annotated(rest, i - 1); }
            }
            forall i | Annotated(methods, i) ensures KeyAt(methods, i, sanitize) !in t {
              if i > 0 { assert Annotated(rest, i - 1); }
            }
          }
          if FreshKeys(t, methods, sanitize) {
            forall i | Annotated(rest, i) ensures KeyAt(rest, i, sanitize) !in t' {
              assert Annotated(methods, i + 1);
            }
            forall i, j | Annotated(rest, i) && Annotated(rest, j) && i < j
              ensures KeyAt(rest, i, sanitize) != KeyAt(rest, j, sanitize)
            {
              assert Annotated(methods, i + 1) && Annotated(methods, j + 1);
            }
          }
        }
    }
  }

  /**
   * Without a conflict, every annotated method is in the table under its own
   * key, with `owner` as the instance.
   */
  lemma {:induction false} RegisterComplete(t: Table, owner: string, methods: seq<MethodInfo>, sanitize: string -> string, i: int)
    requires Register(t, owner, methods, sanitize).conflict.None?
    requires Annotated(methods, i)
    ensures var u := Register(t, owner, methods, sanitize).table;
      KeyAt(methods, i, sanitize) in u && u[KeyAt(methods, i, sanitize)] == RouteTarget(owner, methods[i].name)
    decreases |methods|
  {
    var rest := methods[1..];
    match methods[0].mapping
    case None =>
      RegisterComplete(t, owner, rest, sanitize, i - 1);
    case Some(m) =>
      var k0 := KeyOf(m, sanitize);
      var t' := t[k0 := RouteTarget(owner, methods[0].name)];
      if i == 0 {
        RegisterExtends(t', owner, rest, sanitize);
      } else {
        RegisterComplete(t', owner, rest, sanitize, i - 1);
      }
  }

  /**
   * A conflict at method `j`, after a prefix that raised none, drops that
   * mapping and every later method: the table is the one the prefix left,
   * which still holds the earlier entry for the key.
   */
  lemma StopsAtConflict(t: Table, owner: string, methods: seq<MethodInfo>, sanitize: string -> string, j: int)
    requires 0 <= j < |methods| && methods[j].mapping.Some?
    requires Register(t, owner, methods[..j], sanitize).conflict.None?
    requires KeyAt(methods, j, sanitize) in Register(t, owner, methods[..j], sanitize).table
    ensures var before := Register(t, owner, methods[..j], sanitize).table;
      Register(t, owner, methods, sanitize) == Registration(before, methods[j].mapping)
  {
    assert methods == methods[..j] + methods[j..];
    RegisterAppend(t, owner, methods[..j], methods[j..], sanitize);
  }
  /**
   * Two methods of one class mapped to the same key: the first is stored,
   * the second raises the conflict, and the table holds exactly one entry
   * for the key.
   */
  lemma SameKeyTwice(t: Table, owner: string, first: MethodInfo, second: MethodInfo, sanitize: string -> string)
    requires first.mapping.Some? && second.mapping.Some?
    requires KeyOf(first.mapping.value, sanitize) == KeyOf(second.mapping.value, sanitize)
    requires KeyOf(first.mapping.value, sanitize) !in t
    ensures var k := KeyOf(first.mapping.value, sanitize);
      Register(t, owner, [first, second], sanitize) ==
      Registration(t[k := RouteTarget(owner, first.name)], second.mapping)
  {
  }
}
