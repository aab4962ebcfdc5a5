/** Safety of whole room histories: power, bans and how users came to be joined. */
module RoomRuns {
  import opened Wrappers
  import opened RoomVersions
  import opened Events
  import opened EventAuth
  import opened AuthSelection
  import opened RuleBook
  import opened MembershipRules
  import opened SendRules

  // ----- Histories -----

  function StoreOf(history: seq<Event>): Store {
    if history == [] then map[]
    else StoreOf(history[..|history| - 1])[history[|history| - 1].eventId := history[|history| - 1]]
  }

  /** One room: its version, its id and the server-name syntax check of the deployment. */
  datatype Room = Room(version: RoomVersion, roomId: string, validServer: string -> bool)

  /** `e` may be appended to an accepted history: it is new, builds on the last event, and passes both checks. */
  ghost predicate Accepts(room: Room, history: seq<Event>, e: Event) {
    && e.version == room.version && e.roomId == room.roomId
    && (forall i | 0 <= i < |history| :: history[i].eventId != e.eventId)
    && e.prevEventIds == (if history == [] then [] else [history[|history| - 1].eventId])
    && IndependentlyAllowed(StoreOf(history), e)
    && CheckStateDependent(room.validServer, e, StateOf(history)).Ok?
  }

  /** Every event of the history was accepted on top of the ones before it. */
  ghost predicate ValidHistory(room: Room, history: seq<Event>) {
    forall i {:trigger Accepts(room, history[..i], history[i])} | 0 <= i < |history| ::
      Accepts(room, history[..i], history[i])
  }

  /** Room state in force just before event number `i`. */
  function StateAt(history: seq<Event>, i: nat): State
    requires i <= |history|
  {
    StateOf(history[..i])
  }

  lemma StateStep(history: seq<Event>, i: nat)
    requires i < |history|
    ensures StateAt(history, i + 1) == Apply(StateAt(history, i), history[i])
  {
    assert history[..i + 1][..i] == history[..i];
  }

  /** A history starts with a create event and never holds another. */
  lemma CreateOnlyFirst(room: Room, history: seq<Event>, i: nat)
    requires ValidHistory(room, history) && i < |history|
    ensures history[i].kind == RoomCreate <==> i == 0
  {
    assert Accepts(room, history[..i], history[i]);
    if i == 0 {
      assert history[..0] == [];
      assert StoreOf(history[..0]) == map[];
    } else {
      assert history[i].prevEventIds != [];
    }
  }

  lemma {:induction false} StateEntriesCameFromHistory(history: seq<Event>, i: nat, key: StateKey)
    requires i <= |history| && key in StateAt(history, i)
    ensures exists k | 0 <= k < i ::
              history[k] == StateAt(history, i)[key] && history[k].stateKey.Some? && KeyOf(history[k]) == key
  {
    if i > 0 {
      StateStep(history, i - 1);
      var last := history[i - 1];
      if !(last.stateKey.Some? && KeyOf(last) == key) {
        StateEntriesCameFromHistory(history, i - 1, key);
      }
    }
  }

  lemma CreateStays(room: Room, history: seq<Event>, i: nat)
    requires ValidHistory(room, history) && i <= |history| && CREATE_KEY in StateAt(history, i)
    ensures i > 0 && StateAt(history, i)[CREATE_KEY] == history[0]
  {
    StateEntriesCameFromHistory(history, i, CREATE_KEY);
    var k :| 0 <= k < i && history[k] == StateAt(history, i)[CREATE_KEY]
          && history[k].stateKey.Some? && KeyOf(history[k]) == CREATE_KEY;
    CreateOnlyFirst(room, history, k);
  }

  lemma SecondFollowsFirst(room: Room, history: seq<Event>, i: nat)
    requires ValidHistory(room, history) && 0 < i < |history|
    ensures history[i].prevEventIds == [history[i - 1].eventId]
    ensures history[i - 1].eventId == history[0].eventId ==> i == 1
  {
    assert Accepts(room, history[..i], history[i]);
    assert history[..i][i - 1] == history[i - 1];
    if i > 1 {
      assert Accepts(room, history[..i - 1], history[i - 1]);
      assert history[..i - 1][0] == history[0];
    }
  }

  /** The rule for the creator's first join can only fire for the second event of a history. */
  lemma CreatorJoinIsSecond(room: Room, history: seq<Event>, i: nat)
    requires ValidHistory(room, history) && i < |history|
    requires history[i].prevEventIds != [] && CREATE_KEY in StateAt(history, i)
    requires history[i].prevEventIds[0] == StateAt(history, i)[CREATE_KEY].eventId
    ensures i == 1 && StateAt(history, i)[CREATE_KEY] == history[0]
    ensures StateAt(history, i).Keys == {CREATE_KEY}
  {
    CreateStays(room, history, i);
    SecondFollowsFirst(room, history, i);
    StateStep(history, 0);
    assert history[..0] == [];
  }

  // ----- Power levels -----

  predicate SetsPowers(e: Event) {
    e.kind == RoomPowerLevels && e.stateKey == Some("")
  }

  /** Once there is a power levels event, it is only ever replaced by a change its sender may make. */
  lemma PowersStep(room: Room, history: seq<Event>, i: nat)
    requires ValidHistory(room, history) && i < |history| && POWER_KEY in StateAt(history, i)
    ensures POWER_KEY in StateAt(history, i + 1)
    ensures var before := StateAt(history, i)[POWER_KEY].content.powers;
            var after := StateAt(history, i + 1)[POWER_KEY].content.powers;
            if SetsPowers(history[i])
            then LevelsMayBecome(room.version, history[i].sender, ListedLevel(before, history[i].sender), before, after)
            else after == before
  {
    StateStep(history, i);
    assert Accepts(room, history[..i], history[i]);
    VerdictExactly(room.validServer, history[i], StateAt(history, i));
  }

  /** The largest of `floor` and the listed levels. */
  ghost function Highest(users: map<string, int>, floor: int): (top: int)
    ensures floor <= top && forall user <- users :: users[user] <= top
    ensures top == floor || exists user <- users :: users[user] == top
    decreases |users|
  {
    if users == map[] then floor
    else
      var user :| user in users;
      var rest := users - {user};
      assert forall other <- users :: other == user || (other in rest && rest[other] == users[other]);
      var others := Highest(rest, floor);
      if users[user] <= others then others else users[user]
  }

  /** The power ceiling: zero, the default level or the highest listed level, whichever is largest. */
  ghost function Ceiling(powers: Powers): (ceiling: int)
    ensures ceiling >= 0
    ensures forall user: string :: ListedLevel(powers, user) <= ceiling
  {
    var default := powers.usersDefault.GetOr(0);
    Highest(powers.users, if default < 0 then 0 else default)
  }

  lemma AllowedChangeKeepsCeiling(version: RoomVersion, sender: string, before: Powers, after: Powers)
    requires LevelsMayBecome(version, sender, ListedLevel(before, sender), before, after)
    ensures Ceiling(after) <= Ceiling(before)
  {
    var level := ListedLevel(before, sender);
    forall user <- after.users
      ensures after.users[user] <= Ceiling(before)
    {
      assert Within(level, Entry(before.users, user), Entry(after.users, user));
    }
  }

  /** Over any stretch of a valid history the power ceiling does not rise, so no user ever reaches a
      level above the ceiling of the power levels event first in force. */
  lemma {:induction false} CeilingNeverRises(room: Room, history: seq<Event>, i: nat, j: nat)
    requires ValidHistory(room, history) && i <= j <= |history|
    requires POWER_KEY in StateAt(history, i)
    ensures POWER_KEY in StateAt(history, j)
    ensures Ceiling(StateAt(history, j)[POWER_KEY].content.powers)
         <= Ceiling(StateAt(history, i)[POWER_KEY].content.powers)
    ensures LevelsReadable(StateAt(history, j))
    ensures forall user: string ::
              LevelOf(StateAt(history, j), user) <= Ceiling(StateAt(history, i)[POWER_KEY].content.powers)
    decreases j - i
  {
    if i < j {
      CeilingNeverRises(room, history, i, j - 1);
      PowersStep(room, history, j - 1);
      var before := StateAt(history, j - 1)[POWER_KEY].content.powers;
      var after := StateAt(history, j)[POWER_KEY].content.powers;
      if SetsPowers(history[j - 1]) {
        AllowedChangeKeepsCeiling(room.version, history[j - 1].sender, before, after);
      }
    }
    forall user: string
      ensures LevelOf(StateAt(history, j), user) <= Ceiling(StateAt(history, j)[POWER_KEY].content.powers)
    {
      assert LevelOf(StateAt(history, j), user) == ListedLevel(StateAt(history, j)[POWER_KEY].content.powers, user);
    }
  }

  /** `top` is listed, above zero, above the default and above every other listed user. */
  predicate StrictlyHighest(powers: Powers, top: string) {
    && top in powers.users
    && powers.users[top] > 0
    && powers.users[top] > powers.usersDefault.GetOr(0)
    && forall user <- powers.users | user != top :: powers.users[user] < powers.users[top]
  }

  lemma OthersCannotTouchTop(version: RoomVersion, sender: string, before: Powers, after: Powers, top: string)
    requires LevelsMayBecome(version, sender, ListedLevel(before, sender), before, after)
    requires StrictlyHighest(before, top) && sender != top
    ensures StrictlyHighest(after, top) && after.users[top] == before.users[top]
  {
    var level := ListedLevel(before, sender);
    assert level < before.users[top];
    assert Within(level, Entry(before.users, top), Entry(after.users, top));
    forall user <- after.users | user != top
      ensures after.users[user] < after.users[top]
    {
      assert Within(level, Entry(before.users, user), Entry(after.users, user));
    }
  }

  /** Every membership event of a valid history is one the table of membership rules allows. */
  lemma MemberStep(room: Room, history: seq<Event>, i: nat)
    requires ValidHistory(room, history) && i < |history| && history[i].kind == RoomMember
    ensures history[i].version == room.version && MembershipAllowed(history[i], StateAt(history, i))
  {
    assert Accepts(room, history[..i], history[i]);
    MembershipExactly(history[i], StateAt(history, i));
  }

  /** A kick, a ban or an unban of `target` by somebody else. */
  predicate Removes(e: Event, target: string) {
    && e.kind == RoomMember && e.stateKey == Some(target) && e.sender != target
    && (e.content.membership == Some(Leave) || e.content.membership == Some(Ban))
  }

  /** Kicks and bans need a strictly higher level than the target's. */
  lemma RemovalOutranks(room: Room, history: seq<Event>, i: nat, target: string)
    requires ValidHistory(room, history) && i < |history| && Removes(history[i], target)
    ensures var state := StateAt(history, i);
            && LevelsReadable(state) && LevelOf(state, history[i].sender) > LevelOf(state, target)
            && IsMember(state, history[i].sender, Join)
  {
    MemberStep(room, history, i);
  }

  /** A strictly highest user who sends no power levels event keeps the level and the rank over any
      stretch of a valid history, and nobody else removes them from the room. */
  lemma {:induction false} TopAdminIsStable(room: Room, history: seq<Event>, i: nat, j: nat, top: string)
    requires ValidHistory(room, history) && i <= j <= |history|
    requires POWER_KEY in StateAt(history, i) && StrictlyHighest(StateAt(history, i)[POWER_KEY].content.powers, top)
    requires forall k | i <= k < j :: !(SetsPowers(history[k]) && history[k].sender == top)
    ensures POWER_KEY in StateAt(history, j)
    ensures StrictlyHighest(StateAt(history, j)[POWER_KEY].content.powers, top)
    ensures LevelOf(StateAt(history, j), top) == LevelOf(StateAt(history, i), top)
    ensures forall k | i <= k < j :: !Removes(history[k], top)
    decreases j - i
  {
    if i < j {
      TopAdminIsStable(room, history, i, j - 1, top);
      PowersStep(room, history, j - 1);
      var before := StateAt(history, j - 1)[POWER_KEY].content.powers;
      var after := StateAt(history, j)[POWER_KEY].content.powers;
      if SetsPowers(history[j - 1]) {
        OthersCannotTouchTop(room.version, history[j - 1].sender, before, after, top);
      }
      if Removes(history[j - 1], top) {
        RemovalOutranks(room, history, j - 1, top);
        assert false;
      }
    }
  }

  // ----- Bans -----

  /** Event number `k` lifts the ban on `user`, as only a powerful enough other member may. */
  ghost predicate Unbans(history: seq<Event>, k: nat, user: string)
    requires k < |history|
  {
    var e, state := history[k], StateAt(history, k);
    && e.kind == RoomMember && e.stateKey == Some(user) && e.content.membership == Some(Leave)
    && e.sender != user && IsMember(state, user, Ban)
    && MayLeave(e, user, state)
  }

  /** A ban ends exactly with an event that lifts it. */
  lemma BanStep(room: Room, history: seq<Event>, i: nat, user: string)
    requires ValidHistory(room, history) && i < |history| && IsMember(StateAt(history, i), user, Ban)
    ensures !IsMember(StateAt(history, i + 1), user, Ban) <==> Unbans(history, i, user)
  {
    StateStep(history, i);
    var e, state := history[i], StateAt(history, i);
    if e.stateKey.Some? && KeyOf(e) == MemberKey(user) {
      MemberStep(room, history, i);
      if FoundsRoom(e, user, state) {
        CreatorJoinIsSecond(room, history, i);
        assert false;
      }
    }
  }

  /** Bans are sticky: whoever was banned and no longer is was unbanned in between by another member
      at or above the ban and kick levels and strictly above them. */
  lemma {:induction false} BansAreSticky(room: Room, history: seq<Event>, i: nat, j: nat, user: string)
    requires ValidHistory(room, history) && i <= j <= |history|
    requires IsMember(StateAt(history, i), user, Ban) && !IsMember(StateAt(history, j), user, Ban)
    ensures exists k | i <= k < j :: Unbans(history, k, user)
    decreases j - i
  {
    if IsMember(StateAt(history, i + 1), user, Ban) {
      BansAreSticky(room, history, i + 1, j, user);
    } else {
      BanStep(room, history, i, user);
    }
  }

  // ----- How users came to be joined -----

  predicate SetsMembership(e: Event, user: string, membership: Membership) {
    e.kind == RoomMember && e.stateKey == Some(user) && e.content.membership == Some(membership)
  }

  ghost predicate InvitedBefore(history: seq<Event>, i: nat, user: string)
    requires i <= |history|
  {
    exists k | 0 <= k < i :: SetsMembership(history[k], user, Invite)
  }

  ghost predicate IsCreator(room: Room, history: seq<Event>, user: string) {
    |history| > 0 && CreatorIs(history[0], room.version, user)
  }

  /** Event number `k` is a join of `user` that needed no earlier join. */
  ghost predicate Admits(room: Room, history: seq<Event>, k: nat, user: string)
    requires k < |history|
  {
    && SetsMembership(history[k], user, Join)
    && (|| (k == 1 && IsCreator(room, history, user))
        || (history[k].sender == user
            && (|| InvitedBefore(history, k, user)
                || RuleIn(StateAt(history, k)) == PublicRule
                || (TakesVouchers(room.version, RuleIn(StateAt(history, k)))
                    && VouchedFor(history[k], StateAt(history, k))))))
  }

  ghost predicate AdmittedBefore(room: Room, history: seq<Event>, i: nat, user: string)
    requires i <= |history|
  {
    exists k | 0 <= k < i :: Admits(room, history, k, user)
  }

  lemma JoinStep(room: Room, history: seq<Event>, i: nat, user: string)
    requires ValidHistory(room, history) && i < |history| && SetsMembership(history[i], user, Join)
    requires IsMember(StateAt(history, i), user, Join) ==> AdmittedBefore(room, history, i, user)
    requires IsMember(StateAt(history, i), user, Invite) ==> InvitedBefore(history, i, user)
    ensures AdmittedBefore(room, history, i + 1, user)
  {
    var e, state := history[i], StateAt(history, i);
    MemberStep(room, history, i);
    if FoundsRoom(e, user, state) {
      CreatorJoinIsSecond(room, history, i);
      assert Admits(room, history, i, user);
    } else if !IsMember(state, user, Join) {
      assert Admits(room, history, i, user);
    }
  }

  /** Every joined user was admitted by an event of the history, and every invited one was invited by one. */
  lemma {:induction false} JoinsAreAdmitted(room: Room, history: seq<Event>, i: nat, user: string)
    requires ValidHistory(room, history) && i <= |history|
    ensures IsMember(StateAt(history, i), user, Join) ==> AdmittedBefore(room, history, i, user)
    ensures IsMember(StateAt(history, i), user, Invite) ==> InvitedBefore(history, i, user)
  {
    if i == 0 {
      assert history[..0] == [];
    } else {
      JoinsAreAdmitted(room, history, i - 1, user);
      StateStep(history, i - 1);
      if SetsMembership(history[i - 1], user, Join) {
        JoinStep(room, history, i - 1, user);
      }
    }
  }

  /** This event opens the room: to everybody, or to those somebody vouches for. */
  predicate OpensRoom(e: Event) {
    && e.kind == RoomJoinRules && e.stateKey == Some("")
    && (RuleOf(e.content) == PublicRule || TakesVouchers(e.version, RuleOf(e.content)))
  }

  lemma ClosedUnlessOpened(room: Room, history: seq<Event>, i: nat)
    requires ValidHistory(room, history) && i <= |history| && forall k | 0 <= k < i :: !OpensRoom(history[k])
    ensures RuleIn(StateAt(history, i)) != PublicRule && !TakesVouchers(room.version, RuleIn(StateAt(history, i)))
  {
    var key := StateKey(RoomJoinRules, "");
    if key in StateAt(history, i) {
      StateEntriesCameFromHistory(history, i, key);
      var k :| 0 <= k < i && history[k] == StateAt(history, i)[key]
            && history[k].stateKey.Some? && KeyOf(history[k]) == key;
      assert Accepts(room, history[..k], history[k]);
    }
  }

  /** Invite provenance: as long as no event has opened the room, every joined user is the creator or was invited
      earlier. */
  lemma InviteProvenance(room: Room, history: seq<Event>, i: nat, user: string)
    requires ValidHistory(room, history) && i <= |history| && forall k | 0 <= k < i :: !OpensRoom(history[k])
    requires IsMember(StateAt(history, i), user, Join)
    ensures IsCreator(room, history, user) || InvitedBefore(history, i, user)
  {
    JoinsAreAdmitted(room, history, i, user);
    var k :| 0 <= k < i && Admits(room, history, k, user);
    ClosedUnlessOpened(room, history, k);
  }
}
