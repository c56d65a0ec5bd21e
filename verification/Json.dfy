/** Parsed JSON values as the cJSON library stores them: the children of an array or an object are a
    linked list, names and strings are C strings. */
module Json {
  import opened Wrappers

  // A byte of a C string: the terminating NUL is not part of it.
  type Char = c: char | 1 <= c as int < 256 witness 'a'

  type Text = seq<Char>

  datatype Json = Null | False | True | Num(value: real) | Str(str: Text) | Arr(items: Items) | Obj(members: Members)

  datatype Items = NoItem | Item(value: Json, next: Items)

  datatype Members = NoMember | Member(name: Text, value: Json, next: Members)

  // cJSON_GetObjectItemCaseSensitive on the members: the first one with this name.
  function Find(m: Members, name: Text): Option<Json> {
    if m.NoMember? then None
    else if m.name == name then Some(m.value)
    else Find(m.next, name)
  }

  // The same call on any value; only objects have named children.
  function Get(j: Option<Json>, name: Text): Option<Json> {
    if j.Some? && j.value.Obj? then Find(j.value.members, name) else None
  }

  // The conversion of a double to an integer type drops the fraction.
  function Trunc(r: real): int {
    if r >= 0.0 then r.Floor else -((-r).Floor)
  }

  // The linked lists as sequences.
  ghost function List(c: Items): seq<Json> {
    if c.NoItem? then [] else [c.value] + List(c.next)
  }

  ghost function Children(m: Members): seq<(Text, Json)> {
    if m.NoMember? then [] else [(m.name, m.value)] + Children(m.next)
  }

  // A child that is found is the first one with its name, and one is found if there is any.
  lemma {:induction false} FindIsFirst(m: Members, name: Text) returns (i: nat)
    ensures var c := Children(m);
            if Find(m, name).Some? then i < |c| && c[i] == (name, Find(m, name).value) && forall j :: 0 <= j < i ==> c[j].0 != name
            else forall j :: 0 <= j < |c| ==> c[j].0 != name
    decreases m
  {
    i := 0;
    if m.Member? && m.name != name {
      var c, d := Children(m), Children(m.next);
      i := FindIsFirst(m.next, name);
      assert c[0] == (m.name, m.value) && forall j :: 1 <= j < |c| ==> c[j] == d[j - 1];
      i := i + 1;
    }
  }

  // Truncation is towards zero.
  lemma TruncTowardsZero(r: real)
    ensures var t := Trunc(r) as real; if r >= 0.0 then t <= r < t + 1.0 else t - 1.0 < r <= t
  {}
}
