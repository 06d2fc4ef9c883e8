/**
 The rooms of the service: groups with a roster that changes, and direct threads under a unique key.
 */
module Rooms {
  import opened Wrappers
  import opened Database
  import opened Groups
  import Ordering

  datatype Room = Room(group: bool, directKey: Option<string>, roster: Roster)

  type Rooms = map<Id, Room>

  /** What a reader gets back: the room and its active members. */
  datatype View = View(id: Id, members: set<Id>)

  /** `get`: only an active member may look. */
  function Seen(rooms: Rooms, u: Id, c: Id): Result<View> {
    if c in rooms && Active(rooms[c].roster, u)
    then Success(View(c, ActiveMembers(rooms[c].roster)))
    else Failure(NotFound)
  }

  /** The first check of the service that refuses an operation, if one does. */
  function Refusal(users: set<Id>, rooms: Rooms, c: Id, op: GroupOp): Option<Error> {
    if c !in rooms then Some(NotFound)
    else if !rooms[c].group then Some(Validation)
    else
      var r := rooms[c].roster;
      if !Active(r, op.actor) then Some(NotFound)
      else if op.Leave? then None
      else if r[op.actor].role != Admin then Some(Forbidden)
      else
        match op
        case AddMembers(_, ids) => if ids <= users then None else Some(NotFound)
        case RemoveMember(_, member) => if Active(r, member) then None else Some(NotFound)
        case SetRole(_, member, role) =>
          if !Active(r, member) then Some(NotFound)
          else if r[member].role == Admin && role == Regular && |Admins(r)| == 1 then Some(Conflict)
          else None
  }

  /** The room keeps everything but its roster. */
  function WithRoster(rooms: Rooms, c: Id, r: Roster): Rooms
    requires c in rooms
  {
    rooms[c := rooms[c].(roster := r)]
  }

  /** The service refuses exactly the operations the roster machine does not accept. */
  lemma RefusalIsExact(users: set<Id>, rooms: Rooms, c: Id, op: GroupOp)
    requires c in rooms && rooms[c].group
    ensures Refusal(users, rooms, c, op).None? <==> Accepted(rooms[c].roster, op, users)
  {
    match op
    case Leave(_) =>
    case AddMembers(_, _) =>
    case RemoveMember(_, _) =>
    case SetRole(_, _, _) =>
  }

  // ---------- direct threads ----------

  /** direct_key_for: the two ids in order, joined by a colon. */
  function DirectKey(a: Id, b: Id): string {
    if Ordering.Precedes(b, a) then b + [':'] + a else a + [':'] + b
  }

  predicate ColonFree(a: Id) {
    ':' !in a
  }

  lemma DirectKeySymmetric(a: Id, b: Id)
    ensures DirectKey(a, b) == DirectKey(b, a)
  {
    Ordering.Total(a, b);
    if Ordering.Precedes(a, b) && Ordering.Precedes(b, a) {
      Ordering.Transitive(a, b, a);
      Ordering.Irreflexive(a);
    }
  }

  /** One key per unordered pair. */
  lemma DirectKeyInjective(a: Id, b: Id, c: Id, d: Id)
    requires ColonFree(a) && ColonFree(b) && ColonFree(c) && ColonFree(d)
    ensures DirectKey(a, b) == DirectKey(c, d) <==> {a, b} == {c, d}
  {
    if DirectKey(a, b) == DirectKey(c, d) {
      var x, y := if Ordering.Precedes(b, a) then b else a, if Ordering.Precedes(b, a) then a else b;
      var z, w := if Ordering.Precedes(d, c) then d else c, if Ordering.Precedes(d, c) then c else d;
      Ordering.SplitAtFirst(x, y, z, w, ':');
    }
    if {a, b} == {c, d} {
      assert a in {c, d} && b in {c, d} && c in {a, b} && d in {a, b};
      DirectKeySymmetric(a, b);
    }
  }

  function DirectRoom(a: Id, b: Id, now: int): Room {
    Room(false, Some(DirectKey(a, b)), map[a := Row(Regular, now, true), b := Row(Regular, now, true)])
  }

  predicate HasKey(room: Room, key: string) {
    room.directKey == Some(key)
  }

  /** `_by_direct_key`. */
  ghost predicate Keyed(rooms: Rooms, key: string) {
    exists c :: c in rooms && HasKey(rooms[c], key)
  }
}
