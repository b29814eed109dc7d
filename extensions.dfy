// `Extensions` (volans-core/src/extensions.rs): a map holding at most one
// value per type, keyed by the type's identity. The map itself is only
// made when the first value goes in. Values of every type are of one type
// parameter here, and each operation names the type it is about by its
// identity; the downcast from the stored value to that type always
// succeeds, since a value is stored only under its own type's identity.
module CoreExtensions {
  import opened Wrappers

  /// `TypeId`.
  type TypeId = nat

  /// `Extensions`.
  class Extensions<V> {
    /// `map`: no map yet, or the value stored for each type.
    var table: Option<map<TypeId, V>>

    /// The values stored, as a map whether or not one has been made.
    function Contents(): (m: map<TypeId, V>)
      reads this
      ensures table.None? ==> m == map[]
      ensures table.Some? ==> m == table.value
    {
      if table.None? then map[] else table.value
    }

    /// `Extensions::new`: no map yet.
    constructor()
      ensures table.None? && Contents() == map[]
    {
      table := None;
    }

    /// `insert`: the value replaces any of the same type, and the one it
    /// replaces is returned.
    method Insert(t: TypeId, val: V) returns (previous: Option<V>)
      modifies this
      ensures table == Some(old(Contents())[t := val])
      ensures t in old(Contents()) ==> previous == Some(old(Contents())[t])
      ensures t !in old(Contents()) ==> previous.None?
    {
      var m := Contents();
      previous := if t in m then Some(m[t]) else None;
      table := Some(m[t := val]);
    }

    /// `get` (and `get_mut`, which hands out the same value to change in
    /// place): the value of that type, if there is one.
    method Get(t: TypeId) returns (r: Option<V>)
      ensures r.Some? <==> t in Contents()
      ensures r.Some? ==> r.value == Contents()[t]
    {
      if table.None? || t !in table.value {
        return None;
      }
      return Some(table.value[t]);
    }

    /// `get_or_insert_with` (and `get_or_insert`, `get_or_insert_default`):
    /// the value of that type; only when there is none is `made`, what
    /// the closure gives, stored and returned. Either way the map exists
    /// afterwards.
    method GetOrInsertWith(t: TypeId, made: V) returns (r: V)
      modifies this
      ensures t in old(Contents()) ==> r == old(Contents())[t] && table == Some(old(Contents()))
      ensures t !in old(Contents()) ==> r == made && table == Some(old(Contents())[t := made])
    {
      var m := Contents();
      if t !in m {
        m := m[t := made];
      }
      table := Some(m);
      return m[t];
    }

    /// `remove`: the value of that type is taken out and returned. With
    /// no map yet nothing changes.
    method Remove(t: TypeId) returns (r: Option<V>)
      modifies this
      ensures t in old(Contents()) ==> r == Some(old(Contents())[t])
      ensures t !in old(Contents()) ==> r.None?
      ensures old(table).None? ==> table.None?
      ensures old(table).Some? ==> table == Some(old(Contents()) - {t})
    {
      if table.None? {
        return None;
      }
      var m := table.value;
      r := if t in m then Some(m[t]) else None;
      table := Some(m - {t});
    }

    /// `clear`: every value goes; a map already made stays made.
    method Clear()
      modifies this
      ensures Contents() == map[]
      ensures table.Some? <==> old(table).Some?
    {
      if table.Some? {
        table := Some(map[]);
      }
    }

    /// `len`: the number of types with a value.
    function Len(): (n: nat)
      reads this
      ensures n == |Contents()|
      ensures n == 0 <==> Contents() == map[]
    {
      if table.None? then 0 else |table.value|
    }

    /// `is_empty`.
    function IsEmpty(): (b: bool)
      reads this
      ensures b <==> Len() == 0
    {
      table.None? || table.value == map[]
    }

    /// `extend`: the other's values are added, replacing those of the same
    /// types; when there is no map yet the other's is taken over whole.
    method Extend(other: Extensions<V>)
      modifies this
      ensures old(other.table).None? ==> table == old(table)
      ensures old(other.table).Some? ==> table == Some(old(Contents()) + old(other.Contents()))
    {
      if other.table.None? {
        return;
      }
      var theirs := other.table.value;
      if table.Some? {
        table := Some(table.value + theirs);
      } else {
        assert map[] + theirs == theirs;
        table := Some(theirs);
      }
    }
  }

  /// A value inserted is what `get` finds, the previous one is handed back
  /// by the next insert of that type, and `len` counts it once.
  method InsertThenGet<V>(e: Extensions<V>, t: TypeId, a: V, b: V)
    returns (first: Option<V>, found: Option<V>, replaced: Option<V>, n: nat)
    requires e.table.None?
    modifies e
    ensures first.None? && found == Some(a) && replaced == Some(a) && n == 1
  {
    first := e.Insert(t, a);
    found := e.Get(t);
    replaced := e.Insert(t, b);
    n := e.Len();
  }

  /// `get_or_insert_with` inserts only when the type has no value; and
  /// what is removed is gone.
  method GetOrInsertOnlyWhenAbsent<V>(e: Extensions<V>, t: TypeId, a: V, b: V)
    returns (first: V, second: V, removed: Option<V>, after: Option<V>)
    requires t !in e.Contents()
    modifies e
    ensures first == a && second == a
    ensures removed == Some(a) && after.None?
    ensures e.Contents() == old(e.Contents())
  {
    first := e.GetOrInsertWith(t, a);
    second := e.GetOrInsertWith(t, b);
    removed := e.Remove(t);
    after := e.Get(t);
  }

  /// After `extend`, a type the other holds has the other's value, and
  /// every type only this one held keeps its own.
  method ExtendPrefersOther<V>(e: Extensions<V>, other: Extensions<V>, t: TypeId, u: TypeId)
    returns (theirs: Option<V>, ours: Option<V>)
    requires t in other.Contents() && u in e.Contents() && u !in other.Contents()
    modifies e
    ensures theirs == Some(old(other.Contents())[t])
    ensures ours == Some(old(e.Contents())[u])
  {
    e.Extend(other);
    theirs := e.Get(t);
    ours := e.Get(u);
  }
}
