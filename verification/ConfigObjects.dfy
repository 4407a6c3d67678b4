/** The path writes of the config loader as they happen: in place, on nested mutable objects. */
module ConfigObjects {
  import opened ConfigLayers
  import opened EnvOverlay

  /** What a property holds: `undefined`, a value that is not a plain object, or a plain object. */
  datatype Value = Absent | Scalar(value: string) | Nested(child: ConfigObject)

  function ScalarOf(c: Conf): (v: Value)
    requires !c.Node?
    ensures !v.Nested?
  {
    match c
    case Undef => Absent
    case Leaf(s) => Scalar(s)
  }

  class ConfigObject {
    var fields: map<string, Value>
    ghost var Repr: set<ConfigObject>

    /** The objects below this one form a tree: no child is shared and none leads back up. */
    ghost predicate Valid()
      reads this, Repr
      decreases Repr
    {
      && this in Repr
      && (forall k | k in fields && fields[k].Nested? ::
            var c := fields[k].child;
            c in Repr && c.Repr <= Repr && this !in c.Repr && c.Valid())
      && (forall j, k | j in fields && k in fields && j != k && fields[j].Nested? && fields[k].Nested? ::
            fields[j].child.Repr !! fields[k].child.Repr)
    }

    /** The value of the whole tree. */
    ghost function View(): Obj
      requires Valid()
      reads this, Repr
      decreases Repr, 1
    {
      Node(map k | k in fields :: ViewAt(k))
    }

    ghost function ViewAt(k: string): Conf
      requires Valid() && k in fields
      reads this, Repr
      decreases Repr, 0
    {
      match fields[k]
      case Absent => Undef
      case Scalar(s) => Leaf(s)
      case Nested(c) => c.View()
    }

    constructor ()
      ensures Valid() && View() == EMPTY && fresh(Repr)
    {
      fields := map[];
      Repr := {this};
    }

    /** Stores a value that is not an object; what was under the key is dropped. */
    method Store(k: string, v: Conf)
      requires Valid() && !v.Node?
      modifies this
      ensures Valid() && Repr == old(Repr)
      ensures View() == Put(old(View()), k, v)
    {
      fields := fields[k := ScalarOf(v)];
    }

    /** Puts a new object under a key that has none. */
    method Create(k: string) returns (c: ConfigObject)
      requires Valid()
      modifies this
      ensures Valid() && fresh(Repr - old(Repr))
      ensures k in fields && fields[k] == Nested(c) && c.View() == EMPTY
      ensures View() == Put(old(View()), k, EMPTY)
    {
      c := new ConfigObject();
      fields := fields[k := Nested(c)];
      Repr := Repr + c.Repr;
    }

    /** The object under a key, a new one where none is. */
    method Open(k: string) returns (c: ConfigObject)
      requires Valid()
      modifies this
      ensures Valid() && fresh(Repr - old(Repr))
      ensures k in fields && fields[k] == Nested(c) && c.View() == Child(old(View()), k)
      ensures View() == Put(old(View()), k, c.View())
    {
      if k in fields && fields[k].Nested? {
        c := fields[k].child;
        assert View().fields[k] == ViewAt(k) == c.View();
        assert View().fields == View().fields[k := c.View()];
      } else {
        assert k in fields ==> View().fields[k] == ViewAt(k);
        c := Create(k);
      }
    }

    /** The value under key `j` is `v`, and shares no object with the tree of `c`. */
    ghost predicate Beside(j: string, v: Conf, c: ConfigObject)
      requires j in fields
      reads this, c, if fields[j].Nested? then {fields[j].child} + fields[j].child.Repr else {}
    {
      match fields[j]
      case Absent => v == Undef
      case Scalar(s) => v == Leaf(s)
      case Nested(d) =>
        && d in Repr && d.Repr <= Repr && this !in d.Repr && d.Valid() && v == d.View()
        && d.Repr !! c.Repr
    }

    /** Takes the new objects below the child under `k` into the tree. */
    ghost method Adopt(k: string, c: ConfigObject, before: Obj)
      requires this in Repr && k in fields && fields[k] == Nested(c) && c in Repr && c.Valid() && this !in c.Repr
      requires before.fields.Keys == fields.Keys
      requires forall j | j in fields && j != k :: Beside(j, before.fields[j], c)
      requires forall i, j |
                 i in fields && j in fields && i != j && i != k && j != k && fields[i].Nested? && fields[j].Nested? ::
                 fields[i].child.Repr !! fields[j].child.Repr
      modifies this`Repr
      ensures Repr == old(Repr) + c.Repr && Valid()
      ensures View() == Put(before, k, c.View())
    {
      Repr := Repr + c.Repr;
    }

    /** Writes below the child under `k`. */
    method SetBelow(k: string, c: ConfigObject, path: Path, value: Conf)
      requires Valid() && k in fields && fields[k] == Nested(c) && path != [] && !value.Node?
      modifies Repr
      decreases path, 1
      ensures Valid() && fresh(Repr - old(Repr))
      ensures View() == Put(old(View()), k, ConfigLayers.SetPath(old(c.View()), path, value))
    {
      c.SetPath(path, value);
      forall j | j in fields && j != k ensures Beside(j, old(ViewAt(j)), c) {
        if fields[j].Nested? {
          var d := fields[j].child;
          assert forall o | o in old(d.Repr) :: o in old(Repr) && o !in old(c.Repr);
        }
      }
      Adopt(k, c, old(View()));
    }

    /** `setPath`, in place, on any tree. */
    method SetPath(path: Path, value: Conf)
      requires Valid() && path != [] && !value.Node?
      modifies Repr
      decreases path, 0
      ensures Valid() && fresh(Repr - old(Repr))
      ensures View() == ConfigLayers.SetPath(old(View()), path, value)
    {
      if |path| == 1 {
        Store(path[0], value);
      } else {
        var c := Open(path[0]);
        SetBelow(path[0], c, path[1..], value);
        PutPut(old(View()), path[0], Child(old(View()), path[0]), View().fields[path[0]]);
      }
    }
  }

  ghost function WritesFrom(table: seq<EnvVar>, i: nat, env: map<string, string>, convert: Convert): seq<Write>
    requires i <= |table|
  {
    Writes(table[i..], env, convert)
  }

  lemma NextWrite(t: Obj, table: seq<EnvVar>, i: nat, env: map<string, string>, convert: Convert)
    requires i < |table| && AllApart(WritesFrom(table, i, env, convert))
    ensures AllApart(WritesFrom(table, i + 1, env, convert)) && (IsSet(env, table[i]) ==> table[i].path != [])
    ensures
      var v, rest := table[i], WritesFrom(table, i + 1, env, convert);
      Apply(t, WritesFrom(table, i, env, convert)) ==
        if IsSet(env, v) then Apply(ConfigLayers.SetPath(t, v.path, convert(v.kind, env[v.name])), rest)
        else Apply(t, rest)
  {
    var v, ws, rest := table[i], WritesFrom(table, i, env, convert), WritesFrom(table, i + 1, env, convert);
    assert table[i..][0] == v && table[i..][1..] == table[i + 1..];
    if IsSet(env, v) {
      var w := Write(v.path, convert(v.kind, env[v.name]));
      assert ws == [w] + rest;
      assert ws[0] == w && ws[1..] == rest;
    } else {
      assert ws == rest;
    }
  }

  /** The variables of a table are written one after the other into one object. */
  method WriteVariables(table: seq<EnvVar>, env: map<string, string>, convert: Convert, o: ConfigObject)
    requires o.Valid() && AllApart(Writes(table, env, convert)) && forall kind, raw :: !convert(kind, raw).Node?
    modifies o.Repr
    ensures o.Valid() && fresh(o.Repr - old(o.Repr))
    ensures o.View() == Apply(old(o.View()), Writes(table, env, convert))
  {
    ghost var was := o.View();
    var i := 0;
    assert table[0..] == table;
    while i < |table|
      invariant 0 <= i <= |table| && o.Valid() && fresh(o.Repr - old(o.Repr))
      invariant AllApart(WritesFrom(table, i, env, convert))
      invariant Apply(o.View(), WritesFrom(table, i, env, convert)) == Apply(was, Writes(table, env, convert))
    {
      var v := table[i];
      NextWrite(o.View(), table, i, env, convert);
      if IsSet(env, v) { o.SetPath(v.path, convert(v.kind, env[v.name])); }
      i := i + 1;
    }
  }

  /** `envOverlay`: the object holds the overlay in the end. The text of a variable never becomes a
      plain object. */
  method BuildOverlay(env: map<string, string>, convert: Convert) returns (o: ConfigObject)
    requires forall kind, raw :: !convert(kind, raw).Node?
    ensures o.Valid() && fresh(o.Repr) && o.View() == Overlay(env, convert)
  {
    o := new ConfigObject();
    TablePathsApart();
    WritesFromTable(TABLE, env, convert);
    WriteVariables(TABLE, env, convert, o);
  }
}
