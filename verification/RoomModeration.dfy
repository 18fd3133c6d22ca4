/** Rooms and their members: every private room keeps at least one moderator. */
module RoomModeration {
  import opened Common

  datatype Role = Owner | Admin | Manager | Member
  datatype Membership = Membership(role: Role, active: bool)
  datatype Room = Room(isPrivate: bool, members: map<string, bool>) // user -> is_moderator

  // The rooms of one organization; `staff` are its members, which other operations change.
  datatype State = State(staff: map<string, Membership>, rooms: map<string, Room>, requests: map<string, Request>)
  datatype Status = Pending | Approved | Rejected
  datatype Request = Request(room: string, requestedBy: string, status: Status)

  datatype Delta = Add(user: string, isModerator: bool) | Update(user: string, isModerator: bool) | Remove(user: string)
  datatype Refusal = Forbidden | NotFound | Unprocessable | Conflict

  predicate IsActive(s: State, user: string) {
    user in s.staff && s.staff[user].active
  }

  predicate Moderates(r: Room, user: string) {
    user in r.members && r.members[user]
  }

  // Owners, admins, managers, and the moderators of the room itself.
  predicate MayManage(s: State, user: string, room: string) {
    IsActive(s, user) && (!s.staff[user].role.Member? || (room in s.rooms && Moderates(s.rooms[room], user)))
  }

  function Moderators(members: map<string, bool>): set<string> {
    set u | u in members && members[u]
  }

  lemma SetModerator(members: map<string, bool>, user: string, isModerator: bool)
    ensures Moderators(members[user := isModerator])
            == if isModerator then Moderators(members) + {user} else Moderators(members) - {user}
  {
  }

  // --- what the four operations do ---

  function CreateRoom(s: State, user: string, room: string, isPrivate: bool): Result<State, Refusal> {
    if !IsActive(s, user) then Err(Forbidden)
    else Ok(s.(rooms := s.rooms[room := Room(isPrivate, if isPrivate then map[user := true] else map[])]))
  }

  // One entry of members_delta, in a room that will be private or not.
  function ApplyDelta(s: State, members: map<string, bool>, d: Delta, targetPrivate: bool)
    : Result<map<string, bool>, Refusal>
  {
    if !d.Remove? && !IsActive(s, d.user) then Err(Unprocessable)
    else if (d.Remove? || (d.Update? && !d.isModerator)) && Moderators(members) == {d.user} && targetPrivate then
      Err(Conflict)
    else if d.Remove? then Ok(members - {d.user})
    else Ok(members[d.user := d.isModerator])
  }

  function ApplyDeltas(s: State, members: map<string, bool>, deltas: seq<Delta>, targetPrivate: bool)
    : Result<map<string, bool>, Refusal>
  {
    if deltas == [] then Ok(members)
    else
      match ApplyDeltas(s, members, deltas[..|deltas| - 1], targetPrivate)
      case Err(e) => Err(e)
      case Ok(m) => ApplyDelta(s, m, deltas[|deltas| - 1], targetPrivate)
  }

  function PatchRoom(s: State, user: string, room: string, visibility: Option<bool>, deltas: seq<Delta>)
    : Result<State, Refusal>
  {
    if !MayManage(s, user, room) then Err(Forbidden)
    else if room !in s.rooms then Err(NotFound)
    else
      var targetPrivate := if visibility.None? then s.rooms[room].isPrivate else visibility.value;
      match ApplyDeltas(s, s.rooms[room].members, deltas, targetPrivate)
      case Err(e) => Err(e)
      case Ok(m) =>
        var members := if targetPrivate && Moderators(m) == {} then m[user := true] else m;
        Ok(s.(rooms := s.rooms[room := Room(targetPrivate, members)]))
  }

  function Verdict(approve: bool): Status {
    if approve then Approved else Rejected
  }

  function ReviewRequest(s: State, user: string, room: string, request: string, approve: bool): Result<State, Refusal> {
    if !MayManage(s, user, room) then Err(Forbidden)
    else if request !in s.requests || s.requests[request].room != room || room !in s.rooms then Err(NotFound)
    else if !s.requests[request].status.Pending? then Err(Conflict)
    else
      var requester := s.requests[request].requestedBy;
      if approve && !IsActive(s, requester) then Err(Unprocessable)
      else
        var r := s.rooms[room];
        var members := if approve && requester !in r.members then r.members[requester := false] else r.members;
        Ok(s.(rooms := s.rooms[room := r.(members := members)],
              requests := s.requests[request := s.requests[request].(status := Verdict(approve))]))
  }

  // `target` is the user that the e-mail address belongs to, if any.
  function InviteMember(s: State, user: string, room: string, target: Option<string>): Result<State, Refusal> {
    if !MayManage(s, user, room) then Err(Forbidden)
    else if room !in s.rooms || target.None? then Err(NotFound)
    else if !IsActive(s, target.value) then Err(Unprocessable)
    else
      var r := s.rooms[room];
      var members := if target.value in r.members then r.members else r.members[target.value := false];
      Ok(s.(rooms := s.rooms[room := r.(members := members)]))
  }

  // --- what that means for a caller ---

  // `added` have joined the room as plain members; who was there keeps the flag they had, and nothing else
  // about any room or the staff has changed.
  ghost predicate Joined(before: State, after: State, room: string, added: set<string>) {
    && after.staff == before.staff && room in before.rooms && after.rooms.Keys == before.rooms.Keys
    && (forall r :: r in before.rooms && r != room ==> after.rooms[r] == before.rooms[r])
    && after.rooms[room].isPrivate == before.rooms[room].isPrivate
    && after.rooms[room].members.Keys == before.rooms[room].members.Keys + added
    && (forall u :: u in before.rooms[room].members ==>
          after.rooms[room].members[u] == before.rooms[room].members[u])
    && Moderators(after.rooms[room].members) == Moderators(before.rooms[room].members)
  }

  // There is one more room. If private it belongs to its creator, otherwise nobody is in it yet.
  ghost predicate Opened(before: State, after: State, user: string, room: string, isPrivate: bool) {
    && after.staff == before.staff && after.requests == before.requests
    && after.rooms.Keys == before.rooms.Keys + {room} && after.rooms[room].isPrivate == isPrivate
    && (forall r :: r in before.rooms && r != room ==> after.rooms[r] == before.rooms[r])
    && after.rooms[room].members.Keys == Moderators(after.rooms[room].members) == (if isPrivate then {user} else {})
    && (isPrivate ==> MayManage(after, user, room))
  }

  predicate MayReview(s: State, user: string, room: string, request: string, approve: bool) {
    && MayManage(s, user, room) && room in s.rooms && request in s.requests && s.requests[request].room == room
    && s.requests[request].status.Pending? && (approve ==> IsActive(s, s.requests[request].requestedBy))
  }

  // Only the request has changed, and only in that it is decided as asked.
  ghost predicate Decided(before: State, after: State, request: string, approve: bool) {
    && request in before.requests && after.requests.Keys == before.requests.Keys
    && after.requests[request].room == before.requests[request].room
    && after.requests[request].requestedBy == before.requests[request].requestedBy
    && after.requests[request].status == (if approve then Approved else Rejected)
    && (forall q :: q in before.requests && q != request ==> after.requests[q] == before.requests[q])
  }

  // Whom the rooms are closed to: those who are not active members of the organization, and plain members of it
  // who do not moderate the room.
  predicate Barred(s: State, user: string, room: string) {
    || user !in s.staff || !s.staff[user].active
    || (s.staff[user].role == Member
        && !(room in s.rooms && user in s.rooms[room].members && s.rooms[room].members[user]))
  }

  lemma BarredOrManaging(s: State, user: string, room: string)
    ensures Barred(s, user, room) <==> !MayManage(s, user, room)
  {
  }

  predicate Inactive(s: State, user: string) {
    user !in s.staff || !s.staff[user].active
  }

  // Why an invitation is refused, and a review.
  predicate InviteRefused(s: State, user: string, room: string, target: Option<string>, why: Refusal) {
    match why
    case Forbidden => Barred(s, user, room)
    case NotFound => !Barred(s, user, room) && (room !in s.rooms || target.None?)
    case Unprocessable => !Barred(s, user, room) && room in s.rooms && target.Some? && Inactive(s, target.value)
    case Conflict => false
  }

  predicate ReviewRefused(s: State, user: string, room: string, request: string, approve: bool, why: Refusal) {
    var known := request in s.requests && s.requests[request].room == room && room in s.rooms;
    match why
    case Forbidden => Barred(s, user, room)
    case NotFound => !Barred(s, user, room) && !known
    case Conflict => !Barred(s, user, room) && known && s.requests[request].status != Pending
    case Unprocessable =>
      && !Barred(s, user, room) && known && s.requests[request].status == Pending
      && approve && Inactive(s, s.requests[request].requestedBy)
  }

  lemma CreateOpens(s: State, user: string, room: string, isPrivate: bool)
    requires room !in s.rooms
    ensures CreateRoom(s, user, room, isPrivate).Ok? <==> IsActive(s, user)
    ensures IsActive(s, user) ==> Opened(s, CreateRoom(s, user, room, isPrivate).value, user, room, isPrivate)
  {
    if IsActive(s, user) && isPrivate { SetModerator(map[], user, true); }
  }

  lemma PlainMember(s: State, room: string, user: string)
    requires room in s.rooms
    ensures var r := s.rooms[room];
            var members := if user in r.members then r.members else r.members[user := false];
            Joined(s, s.(rooms := s.rooms[room := r.(members := members)]), room, {user})
  {
    SetModerator(s.rooms[room].members, user, false);
  }

  lemma InviteJoins(s: State, user: string, room: string, target: Option<string>)
    ensures InviteMember(s, user, room, target).Ok? <==>
            MayManage(s, user, room) && room in s.rooms && target.Some? && IsActive(s, target.value)
    ensures forall why :: InviteMember(s, user, room, target) == Err(why) <==> InviteRefused(s, user, room, target, why)
    ensures var r := InviteMember(s, user, room, target);
            r.Ok? ==> Joined(s, r.value, room, {target.value}) && r.value.requests == s.requests
  {
    if InviteMember(s, user, room, target).Ok? { PlainMember(s, room, target.value); }
  }

  lemma ReviewDecides(s: State, user: string, room: string, request: string, approve: bool)
    ensures ReviewRequest(s, user, room, request, approve).Ok? <==> MayReview(s, user, room, request, approve)
    ensures forall why :: ReviewRequest(s, user, room, request, approve) == Err(why)
                          <==> ReviewRefused(s, user, room, request, approve, why)
    ensures var r := ReviewRequest(s, user, room, request, approve);
            r.Ok? ==>
              && Joined(s, r.value, room, if approve then {s.requests[request].requestedBy} else {})
              && Decided(s, r.value, request, approve)
  {
    if ReviewRequest(s, user, room, request, approve).Ok? && approve {
      PlainMember(s, room, s.requests[request].requestedBy);
    }
  }

  // --- what a list of deltas comes to ---

  function UserOf(d: Delta): string {
    d.user
  }

  function FlagOf(members: map<string, bool>, user: string): Option<bool> {
    if user in members then Some(members[user]) else None
  }

  ghost predicate IsLastAbout(deltas: seq<Delta>, user: string, i: int) {
    0 <= i < |deltas| && UserOf(deltas[i]) == user && forall j :: i < j < |deltas| ==> UserOf(deltas[j]) != user
  }

  ghost predicate NoneAbout(deltas: seq<Delta>, user: string) {
    forall i :: 0 <= i < |deltas| ==> UserOf(deltas[i]) != user
  }

  // The flag of a user when some deltas have been carried out: what the last one about the user says, or else
  // what it was.
  function FlagAfter(members: map<string, bool>, deltas: seq<Delta>, user: string): Option<bool> {
    if deltas == [] then FlagOf(members, user)
    else
      var last := deltas[|deltas| - 1];
      if UserOf(last) != user then FlagAfter(members, deltas[..|deltas| - 1], user)
      else if last.Remove? then None
      else Some(last.isModerator)
  }

  lemma {:induction false} TheLastDecides(members: map<string, bool>, deltas: seq<Delta>, user: string, i: int)
    requires IsLastAbout(deltas, user, i)
    ensures FlagAfter(members, deltas, user) == if deltas[i].Remove? then None else Some(deltas[i].isModerator)
  {
    var init, last := deltas[..|deltas| - 1], deltas[|deltas| - 1];
    if i < |deltas| - 1 {
      assert forall j :: i < j < |init| ==> UserOf(init[j]) == UserOf(deltas[j]);
      TheLastDecides(members, init, user, i);
      assert UserOf(last) != user;
    }
  }

  lemma {:induction false} OthersKeepFlags(members: map<string, bool>, deltas: seq<Delta>, user: string)
    requires NoneAbout(deltas, user)
    ensures FlagAfter(members, deltas, user) == FlagOf(members, user)
  {
    if deltas != [] {
      var init := deltas[..|deltas| - 1];
      assert forall j :: 0 <= j < |init| ==> UserOf(init[j]) == UserOf(deltas[j]);
      OthersKeepFlags(members, init, user);
      assert UserOf(deltas[|deltas| - 1]) != user;
    }
  }

  lemma {:induction false} AppliedFlag(s: State, members: map<string, bool>, deltas: seq<Delta>, targetPrivate: bool,
                                       user: string)
    requires ApplyDeltas(s, members, deltas, targetPrivate).Ok?
    ensures FlagOf(ApplyDeltas(s, members, deltas, targetPrivate).value, user) == FlagAfter(members, deltas, user)
  {
    if deltas != [] { AppliedFlag(s, members, deltas[..|deltas| - 1], targetPrivate, user); }
  }

  // The last delta about a user decides; users without a delta keep what they had.
  lemma LastDeltaDecides(s: State, members: map<string, bool>, deltas: seq<Delta>, targetPrivate: bool, user: string)
    requires ApplyDeltas(s, members, deltas, targetPrivate).Ok?
    ensures var after := ApplyDeltas(s, members, deltas, targetPrivate).value;
            && (forall i :: IsLastAbout(deltas, user, i) ==>
                  FlagOf(after, user) == if deltas[i].Remove? then None else Some(deltas[i].isModerator))
            && (NoneAbout(deltas, user) ==> FlagOf(after, user) == FlagOf(members, user))
  {
    AppliedFlag(s, members, deltas, targetPrivate, user);
    forall i | IsLastAbout(deltas, user, i)
      ensures FlagAfter(members, deltas, user) == if deltas[i].Remove? then None else Some(deltas[i].isModerator)
    {
      TheLastDecides(members, deltas, user, i);
    }
    if NoneAbout(deltas, user) { OthersKeepFlags(members, deltas, user); }
  }

  // The user's flag is what the last delta about the user says, or what it was if there is none.
  ghost predicate Obeys(deltas: seq<Delta>, before: map<string, bool>, after: map<string, bool>, user: string) {
    && (forall i :: IsLastAbout(deltas, user, i) ==>
          FlagOf(after, user) == if deltas[i].Remove? then None else Some(deltas[i].isModerator))
    && (NoneAbout(deltas, user) ==> FlagOf(after, user) == FlagOf(before, user))
  }

  function TargetPrivate(r: Room, visibility: Option<bool>): bool {
    if visibility.None? then r.isPrivate else visibility.value
  }

  // --- which lists of deltas are accepted ---

  // After these deltas the user moderates the room and nobody else does.
  ghost predicate OnlyModeratorAfter(members: map<string, bool>, deltas: seq<Delta>, user: string) {
    forall u :: FlagAfter(members, deltas, u) == Some(true) <==> u == user
  }

  // Entry i lets somebody in who is not an active member of the organization.
  predicate LetsInactiveIn(s: State, deltas: seq<Delta>, i: int)
    requires 0 <= i < |deltas|
  {
    (deltas[i].Add? || deltas[i].Update?) && Inactive(s, deltas[i].user)
  }

  // Entry i takes its only moderator from a room that will be private, by removal or by demotion.
  ghost predicate TakesTheModerator(members: map<string, bool>, deltas: seq<Delta>, targetPrivate: bool, i: int)
    requires 0 <= i < |deltas|
  {
    && targetPrivate && (deltas[i].Remove? || deltas[i] == Update(deltas[i].user, false))
    && OnlyModeratorAfter(members, deltas[..i], deltas[i].user)
  }

  ghost predicate Acceptable(s: State, members: map<string, bool>, deltas: seq<Delta>, targetPrivate: bool) {
    forall i :: 0 <= i < |deltas| ==>
      !LetsInactiveIn(s, deltas, i) && !TakesTheModerator(members, deltas, targetPrivate, i)
  }

  // Entry i is the first one that cannot be accepted, for this reason.
  ghost predicate RefusedAt(s: State, members: map<string, bool>, deltas: seq<Delta>, targetPrivate: bool, i: int,
                            why: Refusal)
  {
    && 0 <= i < |deltas| && Acceptable(s, members, deltas[..i], targetPrivate)
    && if LetsInactiveIn(s, deltas, i) then why == Unprocessable
       else why == Conflict && TakesTheModerator(members, deltas, targetPrivate, i)
  }

  lemma OnlyModerator(s: State, members: map<string, bool>, deltas: seq<Delta>, targetPrivate: bool, user: string)
    requires ApplyDeltas(s, members, deltas, targetPrivate).Ok?
    ensures var m := ApplyDeltas(s, members, deltas, targetPrivate).value;
            Moderators(m) == {user} <==> OnlyModeratorAfter(members, deltas, user)
  {
    var m := ApplyDeltas(s, members, deltas, targetPrivate).value;
    forall u ensures u in Moderators(m) <==> FlagAfter(members, deltas, u) == Some(true) {
      AppliedFlag(s, members, deltas, targetPrivate, u);
    }
    if OnlyModeratorAfter(members, deltas, user) {
      assert forall u :: u in Moderators(m) <==> u in {user};
    }
  }

  lemma OneMoreDelta(s: State, members: map<string, bool>, deltas: seq<Delta>, targetPrivate: bool)
    requires deltas != []
    ensures var n := |deltas| - 1;
            Acceptable(s, members, deltas, targetPrivate) <==>
            && Acceptable(s, members, deltas[..n], targetPrivate)
            && !LetsInactiveIn(s, deltas, n) && !TakesTheModerator(members, deltas, targetPrivate, n)
  {
    var init := deltas[..|deltas| - 1];
    forall i | 0 <= i < |init|
      ensures LetsInactiveIn(s, init, i) == LetsInactiveIn(s, deltas, i)
      ensures TakesTheModerator(members, init, targetPrivate, i) == TakesTheModerator(members, deltas, targetPrivate, i)
    {
      assert init[..i] == deltas[..i] && init[i] == deltas[i];
    }
  }

  // The deltas go through exactly if every one of them is acceptable where it stands.
  lemma {:induction false} AcceptedIffAcceptable(s: State, members: map<string, bool>, deltas: seq<Delta>,
                                                 targetPrivate: bool)
    ensures ApplyDeltas(s, members, deltas, targetPrivate).Ok? <==> Acceptable(s, members, deltas, targetPrivate)
  {
    if deltas != [] {
      var init, last := deltas[..|deltas| - 1], deltas[|deltas| - 1];
      AcceptedIffAcceptable(s, members, init, targetPrivate);
      OneMoreDelta(s, members, deltas, targetPrivate);
      if ApplyDeltas(s, members, init, targetPrivate).Ok? { OnlyModerator(s, members, init, targetPrivate, last.user); }
    }
  }

  // And otherwise the first one that is not gives the reason.
  lemma {:induction false} RefusedForTheFirst(s: State, members: map<string, bool>, deltas: seq<Delta>,
                                              targetPrivate: bool, i: int, why: Refusal)
    requires RefusedAt(s, members, deltas, targetPrivate, i, why)
    ensures ApplyDeltas(s, members, deltas, targetPrivate) == Err(why)
  {
    var init := deltas[..i];
    AcceptedIffAcceptable(s, members, init, targetPrivate);
    OnlyModerator(s, members, init, targetPrivate, deltas[i].user);
    assert deltas[..i + 1][..i] == init;
    RefusalStays(s, members, deltas, targetPrivate, i + 1);
  }

  lemma {:induction false} SomeEntryIsRefused(s: State, members: map<string, bool>, deltas: seq<Delta>,
                                              targetPrivate: bool)
    returns (i: int, why: Refusal)
    requires !Acceptable(s, members, deltas, targetPrivate)
    ensures RefusedAt(s, members, deltas, targetPrivate, i, why)
  {
    var n := |deltas| - 1;
    OneMoreDelta(s, members, deltas, targetPrivate);
    if Acceptable(s, members, deltas[..n], targetPrivate) {
      i, why := n, if LetsInactiveIn(s, deltas, n) then Unprocessable else Conflict;
    } else {
      i, why := SomeEntryIsRefused(s, members, deltas[..n], targetPrivate);
      assert deltas[..n][..i] == deltas[..i];
    }
  }

  // Somebody to whom the room is not closed, and only acceptable deltas.
  ghost predicate MayPatch(s: State, user: string, room: string, visibility: Option<bool>, deltas: seq<Delta>) {
    && !Barred(s, user, room) && room in s.rooms
    && Acceptable(s, s.rooms[room].members, deltas, TargetPrivate(s.rooms[room], visibility))
  }

  ghost predicate PatchRefused(s: State, user: string, room: string, visibility: Option<bool>, deltas: seq<Delta>,
                               why: Refusal) {
    match why
    case Forbidden => Barred(s, user, room)
    case NotFound => !Barred(s, user, room) && room !in s.rooms
    case _ =>
      && !Barred(s, user, room) && room in s.rooms
      && exists i ::
           RefusedAt(s, s.rooms[room].members, deltas, TargetPrivate(s.rooms[room], visibility), i, why)
  }

  lemma PatchAnswers(s: State, user: string, room: string, visibility: Option<bool>, deltas: seq<Delta>)
    ensures PatchRoom(s, user, room, visibility, deltas).Ok? <==> MayPatch(s, user, room, visibility, deltas)
    ensures forall why :: PatchRoom(s, user, room, visibility, deltas) == Err(why)
                          <==> PatchRefused(s, user, room, visibility, deltas, why)
  {
    if !Barred(s, user, room) && room in s.rooms {
      var members, target := s.rooms[room].members, TargetPrivate(s.rooms[room], visibility);
      AcceptedIffAcceptable(s, members, deltas, target);
      if !Acceptable(s, members, deltas, target) {
        var i, e := SomeEntryIsRefused(s, members, deltas, target);
        assert RefusedAt(s, members, deltas, target, i, e);
      }
      forall i, why | RefusedAt(s, members, deltas, target, i, why)
        ensures ApplyDeltas(s, members, deltas, target) == Err(why)
      {
        RefusedForTheFirst(s, members, deltas, target, i, why);
      }
    }
  }

  // Only the room has changed: it has the visibility asked for, every flag obeys the deltas, except that the
  // caller is made the moderator of a private room that they would leave without one, and so it has one.
  ghost predicate Patched(before: State, after: State, user: string, room: string, isPrivate: bool,
                          deltas: seq<Delta>) {
    && after.staff == before.staff && after.requests == before.requests
    && room in before.rooms && after.rooms.Keys == before.rooms.Keys
    && (forall r :: r in before.rooms && r != room ==> after.rooms[r] == before.rooms[r])
    && after.rooms[room].isPrivate == isPrivate
    && (isPrivate ==> Moderators(after.rooms[room].members) != {})
    && forall u :: || Obeys(deltas, before.rooms[room].members, after.rooms[room].members, u)
                   || (u == user && isPrivate && Moderators(after.rooms[room].members) == {user})
  }

  lemma PatchMeans(s: State, user: string, room: string, visibility: Option<bool>, deltas: seq<Delta>)
    ensures var r := PatchRoom(s, user, room, visibility, deltas);
            && (r.Ok? <==> MayPatch(s, user, room, visibility, deltas))
            && (forall why :: r == Err(why) <==> PatchRefused(s, user, room, visibility, deltas, why))
            && (r.Ok? ==> Patched(s, r.value, user, room, TargetPrivate(s.rooms[room], visibility), deltas))
  {
    PatchAnswers(s, user, room, visibility, deltas);
    var r := PatchRoom(s, user, room, visibility, deltas);
    if r.Ok? {
      var before, target := s.rooms[room].members, TargetPrivate(s.rooms[room], visibility);
      var obeyed := ApplyDeltas(s, before, deltas, target).value;
      forall u ensures Obeys(deltas, before, obeyed, u) {
        LastDeltaDecides(s, before, deltas, target, u);
      }
      SetModerator(obeyed, user, true);
      forall u | u != user ensures Obeys(deltas, before, r.value.rooms[room].members, u) {
        assert Obeys(deltas, before, obeyed, u) && FlagOf(r.value.rooms[room].members, u) == FlagOf(obeyed, u);
      }
    }
  }

  // --- the repository, changing its tables step by step ---

  class Repository {
    var state: State

    constructor (staff: map<string, Membership>)
      ensures state == State(staff, map[], map[])
    {
      state := State(staff, map[], map[]);
    }

    method Create(user: string, room: string, isPrivate: bool) returns (refusal: Option<Refusal>)
      requires room !in state.rooms
      modifies this
      ensures refusal.None? <==> !Inactive(old(state), user)
      ensures refusal.Some? ==> refusal.value == Forbidden
      ensures refusal.None? ==> Opened(old(state), state, user, room, isPrivate)
      ensures refusal.Some? ==> state == old(state)
      ensures match CreateRoom(old(state), user, room, isPrivate)
              case Ok(s) => state == s && refusal.None?
              case Err(e) => state == old(state) && refusal == Some(e)
    {
      CreateOpens(state, user, room, isPrivate);
      if !IsActive(state, user) { return Some(Forbidden); }
      state := state.(rooms := state.rooms[room := Room(isPrivate, map[])]);
      if isPrivate {
        var r := state.rooms[room];
        state := state.(rooms := state.rooms[room := r.(members := r.members[user := true])]);
      }
      return None;
    }

    method Invite(user: string, room: string, target: Option<string>) returns (refusal: Option<Refusal>)
      modifies this
      ensures refusal.None? <==> MayManage(old(state), user, room) && room in old(state).rooms && target.Some?
                                 && IsActive(old(state), target.value)
      ensures forall why :: refusal == Some(why) <==> InviteRefused(old(state), user, room, target, why)
      ensures refusal.None? ==>
                Joined(old(state), state, room, {target.value}) && state.requests == old(state).requests
      ensures refusal.Some? ==> state == old(state)
      ensures match InviteMember(old(state), user, room, target)
              case Ok(s) => state == s && refusal.None?
              case Err(e) => state == old(state) && refusal == Some(e)
    {
      InviteJoins(state, user, room, target);
      if !MayManage(state, user, room) { return Some(Forbidden); }
      if room !in state.rooms || target.None? { return Some(NotFound); }
      if !IsActive(state, target.value) { return Some(Unprocessable); }
      var r := state.rooms[room];
      if target.value !in r.members { r := r.(members := r.members[target.value := false]); }
      state := state.(rooms := state.rooms[room := r]);
      return None;
    }

    // Approval inserts the member, then the request is closed; both or neither.
    method Review(user: string, room: string, request: string, approve: bool) returns (refusal: Option<Refusal>)
      modifies this
      ensures refusal.None? <==> MayReview(old(state), user, room, request, approve)
      ensures forall why :: refusal == Some(why) <==> ReviewRefused(old(state), user, room, request, approve, why)
      ensures refusal.None? ==> Decided(old(state), state, request, approve)
      ensures refusal.None? ==>
                Joined(old(state), state, room, if approve then {old(state).requests[request].requestedBy} else {})
      ensures refusal.Some? ==> state == old(state)
      ensures match ReviewRequest(old(state), user, room, request, approve)
              case Ok(s) => state == s && refusal.None?
              case Err(e) => state == old(state) && refusal == Some(e)
    {
      ReviewDecides(state, user, room, request, approve);
      if !MayManage(state, user, room) { return Some(Forbidden); }
      if request !in state.requests || state.requests[request].room != room || room !in state.rooms {
        return Some(NotFound);
      }
      var current := state.requests[request];
      if !current.status.Pending? { return Some(Conflict); }
      if approve && !IsActive(state, current.requestedBy) { return Some(Unprocessable); }
      var r := state.rooms[room];
      if approve && current.requestedBy !in r.members { r := r.(members := r.members[current.requestedBy := false]); }
      state := state.(rooms := state.rooms[room := r]);
      state := state.(requests := state.requests[request := current.(status := Verdict(approve))]);
      return None;
    }

    // The transaction of patch_room: the deltas are written one after another and a refusal rolls them back.
    method Patch(user: string, room: string, visibility: Option<bool>, deltas: seq<Delta>)
      returns (refusal: Option<Refusal>)
      modifies this
      ensures refusal.None? <==> MayPatch(old(state), user, room, visibility, deltas)
      ensures forall why :: refusal == Some(why) <==> PatchRefused(old(state), user, room, visibility, deltas, why)
      ensures refusal.None? ==>
                Patched(old(state), state, user, room, TargetPrivate(old(state).rooms[room], visibility), deltas)
      ensures refusal.Some? ==> state == old(state)
      ensures match PatchRoom(old(state), user, room, visibility, deltas)
              case Ok(s) => state == s && refusal.None?
              case Err(e) => state == old(state) && refusal == Some(e)
    {
      PatchMeans(state, user, room, visibility, deltas);
      if !MayManage(state, user, room) { return Some(Forbidden); }
      if room !in state.rooms { return Some(NotFound); }
      var current := state.rooms[room];
      var targetPrivate := if visibility.None? then current.isPrivate else visibility.value;
      var members := current.members;
      for k := 0 to |deltas|
        invariant state == old(state)
        invariant ApplyDeltas(state, current.members, deltas[..k], targetPrivate) == Ok(members)
      {
        var d := deltas[k];
        assert deltas[..k + 1][..k] == deltas[..k];
        if !d.Remove? && !IsActive(state, d.user) {
          RefusalStays(state, current.members, deltas, targetPrivate, k + 1);
          return Some(Unprocessable);
        }
        if d.Remove? || (d.Update? && !d.isModerator) {
          var isLast := d.user in members && members[d.user] && |Moderators(members)| == 1;
          LastModerator(members, d.user);
          if isLast && targetPrivate {
            RefusalStays(state, current.members, deltas, targetPrivate, k + 1);
            return Some(Conflict);
          }
        }
        if d.Remove? {
          members := members - {d.user};
        } else {
          members := members[d.user := d.isModerator];
        }
      }
      assert deltas[..|deltas|] == deltas;
      if targetPrivate && |Moderators(members)| == 0 {
        members := members[user := true];
      }
      state := state.(rooms := state.rooms[room := Room(targetPrivate, members)]);
      return None;
    }
  }

  // The query for the last moderator asks whether the user is the only one.
  lemma LastModerator(members: map<string, bool>, user: string)
    ensures user in members && members[user] && |Moderators(members)| == 1 <==> Moderators(members) == {user}
  {
    if user in members && members[user] && |Moderators(members)| == 1 {
      var others := Moderators(members) - {user};
      assert |others| == 0;
      assert Moderators(members) == others + {user};
    }
  }

  lemma {:induction false} RefusalStays(s: State, members: map<string, bool>, deltas: seq<Delta>,
                                       targetPrivate: bool, k: nat)
    requires k <= |deltas| && ApplyDeltas(s, members, deltas[..k], targetPrivate).Err?
    ensures ApplyDeltas(s, members, deltas, targetPrivate) == ApplyDeltas(s, members, deltas[..k], targetPrivate)
  {
    if k < |deltas| {
      assert deltas[..|deltas| - 1][..k] == deltas[..k];
      RefusalStays(s, members, deltas[..|deltas| - 1], targetPrivate, k);
    } else {
      assert deltas[..k] == deltas;
    }
  }

  // --- runs ---

  datatype Action =
    | Create(user: string, room: string, isPrivate: bool)
    | Patch(user: string, room: string, visibility: Option<bool>, deltas: seq<Delta>)
    | Review(user: string, room: string, request: string, approve: bool)
    | Invite(user: string, room: string, target: Option<string>)
    | Staff(staff: map<string, Membership>)
    | Ask(request: string, room: string, user: string)

  function Perform(s: State, a: Action): Result<State, Refusal> {
    match a
    case Create(user, room, isPrivate) =>
      if room in s.rooms then Err(Conflict) else CreateRoom(s, user, room, isPrivate)
    case Patch(user, room, visibility, deltas) => PatchRoom(s, user, room, visibility, deltas)
    case Review(user, room, request, approve) => ReviewRequest(s, user, room, request, approve)
    case Invite(user, room, target) => InviteMember(s, user, room, target)
    case Staff(staff) => Ok(s.(staff := staff))
    case Ask(request, room, user) =>
      if request in s.requests then Err(Conflict)
      else Ok(s.(requests := s.requests[request := Request(room, user, Pending)]))
  }

  function Next(s: State, a: Action): State {
    match Perform(s, a) case Ok(t) => t case Err(_) => s
  }

  function Run(s: State, actions: seq<Action>): State {
    if actions == [] then s else Next(Run(s, actions[..|actions| - 1]), actions[|actions| - 1])
  }

  ghost predicate Guarded(r: Room) {
    r.isPrivate ==> Moderators(r.members) != {}
  }

  ghost predicate AllGuarded(s: State) {
    forall room :: room in s.rooms ==> Guarded(s.rooms[room])
  }

  lemma MoreMembersKeepModerators(members: map<string, bool>, user: string, isModerator: bool)
    requires user in members ==> isModerator || !members[user]
    ensures Moderators(members) <= Moderators(members[user := isModerator])
  {
  }

  lemma CallerModerates(members: map<string, bool>, user: string)
    ensures user in Moderators(members[user := true])
  {
  }

  lemma NextKeepsGuarded(s: State, a: Action)
    requires AllGuarded(s)
    ensures AllGuarded(Next(s, a))
  {
    var t := Next(s, a);
    match a
    case Create(user, room, isPrivate) => assert user in Moderators(map[user := true]);
    case Patch(user, room, visibility, deltas) =>
      if t != s {
        var targetPrivate := if visibility.None? then s.rooms[room].isPrivate else visibility.value;
        CallerModerates(ApplyDeltas(s, s.rooms[room].members, deltas, targetPrivate).value, user);
      }
    case Review(user, room, request, approve) =>
      if t != s {
        var requester := s.requests[request].requestedBy;
        if requester !in s.rooms[room].members { MoreMembersKeepModerators(s.rooms[room].members, requester, false); }
      }
    case Invite(user, room, target) =>
      if t != s && target.value !in s.rooms[room].members {
        MoreMembersKeepModerators(s.rooms[room].members, target.value, false);
      }
    case _ =>
  }

  // Over all runs of all operations: every private room has a moderator.
  lemma {:induction false} PrivateRoomsKeepAModerator(staff: map<string, Membership>, actions: seq<Action>)
    ensures AllGuarded(Run(State(staff, map[], map[]), actions))
  {
    if actions != [] {
      PrivateRoomsKeepAModerator(staff, actions[..|actions| - 1]);
      NextKeepsGuarded(Run(State(staff, map[], map[]), actions[..|actions| - 1]), actions[|actions| - 1]);
    }
  }

  function ActorOf(a: Action): Option<string> {
    match a
    case Create(user, _, _) => Some(user)
    case Patch(user, _, _, _) => Some(user)
    case Review(user, _, _, _) => Some(user)
    case Invite(user, _, _) => Some(user)
    case _ => None
  }

  // An existing room is only ever changed by someone who may manage it, and nobody leaves a room or loses
  // or gains moderation except through a patch of that room.
  lemma OnlyManagersChangeRooms(s: State, a: Action, room: string)
    requires room in s.rooms
    ensures var t := Next(s, a);
            && room in t.rooms
            && (t.rooms[room] != s.rooms[room] ==> ActorOf(a).Some? && MayManage(s, ActorOf(a).value, room))
            && (!a.Patch? ==>
                  && t.rooms[room].isPrivate == s.rooms[room].isPrivate
                  && s.rooms[room].members.Keys <= t.rooms[room].members.Keys
                  && Moderators(t.rooms[room].members) == Moderators(s.rooms[room].members))
  {
    match a
    case Review(user, r, request, approve) =>
      if Perform(s, a).Ok? && r == room {
        SetModerator(s.rooms[room].members, s.requests[request].requestedBy, false);
      }
    case Invite(user, r, target) =>
      if Perform(s, a).Ok? && r == room {
        SetModerator(s.rooms[room].members, target.value, false);
      }
    case _ =>
  }

  // A request is decided once: no action reopens it, and a second review of it is refused.
  lemma DecidedOnce(s: State, a: Action, request: string)
    requires request in s.requests && !s.requests[request].status.Pending?
    ensures request in Next(s, a).requests && Next(s, a).requests[request] == s.requests[request]
    ensures a.Review? && a.request == request ==> Perform(s, a).Err?
  {
  }

  // --- the guard inside patch_room ---

  ghost predicate NoDemotingAdd(deltas: seq<Delta>) {
    forall i :: 0 <= i < |deltas| && deltas[i].Add? ==> deltas[i].isModerator
  }

  // Removals and updates alone can never leave a private room without moderators ...
  lemma {:induction false} GuardHoldsWithoutDemotingAdd(s: State, members: map<string, bool>, deltas: seq<Delta>)
    requires NoDemotingAdd(deltas) && Moderators(members) != {}
    requires ApplyDeltas(s, members, deltas, true).Ok?
    ensures Moderators(ApplyDeltas(s, members, deltas, true).value) != {}
  {
    if deltas != [] {
      var init, d := deltas[..|deltas| - 1], deltas[|deltas| - 1];
      assert forall i :: 0 <= i < |init| ==> init[i] == deltas[i];
      GuardHoldsWithoutDemotingAdd(s, members, init);
      var before := ApplyDeltas(s, members, init, true).value;
      var after := ApplyDelta(s, before, d, true).value;
      if !d.Remove? && d.isModerator {
        CallerModerates(before, d.user);
      } else {
        var other :| other in Moderators(before) && other != d.user;
        assert other in Moderators(after);
      }
    }
  }

  // ... an `add` that demotes the last one can, and then the caller becomes the moderator.
  lemma DemotingAddPromotesCaller(s: State, caller: string, room: string, last: string)
    requires MayManage(s, caller, room) && room in s.rooms && s.rooms[room].isPrivate && IsActive(s, last)
    requires Moderators(s.rooms[room].members) == {last} && caller != last
    ensures PatchRoom(s, caller, room, None, [Add(last, false)]).Ok?
    ensures Moderators(PatchRoom(s, caller, room, None, [Add(last, false)]).value.rooms[room].members) == {caller}
  {
    var members := s.rooms[room].members;
    assert [Add(last, false)][..0] == [];
    assert ApplyDeltas(s, members, [Add(last, false)], true) == Ok(members[last := false]);
    SetModerator(members, last, false);
    SetModerator(members[last := false], caller, true);
  }

  // Handing a private room over needs the right order: the successor first.
  lemma HandoverNeedsOrder(s: State, members: map<string, bool>, last: string, next: string)
    requires Moderators(members) == {last} && next != last && IsActive(s, next)
    ensures ApplyDeltas(s, members, [Remove(last), Add(next, true)], true) == Err(Conflict)
    ensures ApplyDeltas(s, members, [Add(next, true), Remove(last)], true) == Ok(members[next := true] - {last})
  {
    var bad, good := [Remove(last), Add(next, true)], [Add(next, true), Remove(last)];
    assert bad[..1] == [Remove(last)] && [Remove(last)][..0] == [];
    assert good[..1] == [Add(next, true)] && [Add(next, true)][..0] == [];
    assert ApplyDeltas(s, members, [Remove(last)], true) == Err(Conflict);
    assert ApplyDeltas(s, members, [Add(next, true)], true) == Ok(members[next := true]);
    SetModerator(members, next, true);
  }
}
