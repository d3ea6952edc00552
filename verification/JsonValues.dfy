/**
 JSON trees. An object is a list of members; looking a key up finds its first
 member. Numbers other than the integers the layout writes stay uninterpreted.
 */
module JsonValues {

  datatype Option<+T> = None | Some(value: T)

  datatype Member = Member(key: string, value: Json)

  datatype Json =
    | Null
    | Bool(flag: bool)
    | Int(number: int)
    | Float(digits: string)
    | Str(text: string)
    | Arr(items: seq<Json>)
    | Obj(members: seq<Member>)

  function Find(members: seq<Member>, key: string): Option<Json> {
    if members == [] then None
    else if members[0].key == key then Some(members[0].value)
    else Find(members[1..], key)
  }

  /** `value[key]`: nothing unless `value` is an object with that key. */
  function Get(value: Json, key: string): Option<Json> {
    if value.Obj? then Find(value.members, key) else None
  }

  /** Replaces the member named `key`, or adds it. */
  function Put(members: seq<Member>, key: string, value: Json): seq<Member> {
    if members == [] then [Member(key, value)]
    else if members[0].key == key then [Member(key, value)] + members[1..]
    else [members[0]] + Put(members[1..], key, value)
  }

  lemma {:induction false} PutFinds(members: seq<Member>, key: string, value: Json, other: string)
    ensures Find(Put(members, key, value), other)
         == if other == key then Some(value) else Find(members, other)
  {
    if members != [] && members[0].key != key {
      PutFinds(members[1..], key, value, other);
      assert Put(members, key, value)[1..] == Put(members[1..], key, value);
    }
  }
}
