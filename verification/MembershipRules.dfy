/** The membership rules as a table over the rule book: exactly which membership changes the code lets through. */
module MembershipRules {
  import opened Wrappers
  import opened Events
  import opened EventAuth
  import opened RuleBook

  /** Every entry read about the two users can be read. */
  predicate Readable(e: Event, target: string, state: State) {
    MembershipReadable(state, e.sender) && MembershipReadable(state, target) && LevelsReadable(state)
  }

  /** The event lies directly on top of the create event. */
  predicate FollowsCreate(e: Event, state: State) {
    Created(state) && e.prevEventIds == [state[StateKey(RoomCreate, "")].eventId]
  }

  /** The creator, entering a room that holds nothing but its create event. */
  predicate FoundsRoom(e: Event, target: string, state: State) {
    FollowsCreate(e, state) && CreatorIs(state[StateKey(RoomCreate, "")], e.version, target)
  }

  /** A create event without a creator stops the join directly on top of it. */
  predicate CreatorMissing(e: Event, state: State) {
    FollowsCreate(e, state) && !CreatorKnown(state[StateKey(RoomCreate, "")], e.version)
  }

  predicate Outranks(e: Event, target: string, needed: int, state: State) {
    LevelOf(state, e.sender) >= needed && LevelOf(state, e.sender) > LevelOf(state, target)
  }

  /** The signed block names this target and verifies under a key of the third-party invite with its token, which the
      sender of this invite issued. */
  predicate ProvenInvite(e: Event, target: string, signed: SignedInvite, state: State) {
    && signed.mxid == Some(target) && signed.token.Some? && signed.verifiesUnder.Some?
    && var key := StateKey(RoomThirdPartyInvite, signed.token.value);
    && key in state && state[key].sender == e.sender
    && exists i | 0 <= i < |state[key].content.publicKeys| ::
         state[key].content.publicKeys[i] in signed.verifiesUnder.value
  }

  predicate MayInvite(e: Event, target: string, state: State) {
    && !IsMember(state, target, Ban)
    && match e.content.thirdPartyInvite
       case Some(signed) => ProvenInvite(e, target, signed, state)
       case None =>
         && IsMember(state, e.sender, Join) && !IsMember(state, target, Join)
         && LevelOf(state, e.sender) >= NeededToInvite(state)
  }

  predicate VouchedFor(e: Event, state: State) {
    match e.content.authorisingUser
    case Some(voucher) =>
      IsMember(state, voucher, Join) && LevelsReadable(state) && LevelOf(state, voucher) >= NeededToInvite(state)
    case None => false
  }

  predicate MayJoin(e: Event, target: string, state: State) {
    var rule := RuleIn(state);
    && e.sender == target && !IsMember(state, target, Ban)
    && (|| rule == PublicRule
        || (TakesInvited(e.version, rule) && (IsMember(state, target, Join) || IsMember(state, target, Invite)))
        || (TakesVouchers(e.version, rule) && VouchedFor(e, state)))
  }

  /** One leaves from a join, an invite or a knock; others are kicked or unbanned by a stronger member. */
  predicate MayLeave(e: Event, target: string, state: State) {
    if e.sender == target then
      || IsMember(state, target, Join)
      || IsMember(state, target, Invite)
      || (e.version.knockJoinRule && IsMember(state, target, Knock))
    else
      && IsMember(state, e.sender, Join) && Outranks(e, target, NeededToKick(state), state)
      && (IsMember(state, target, Ban) ==> LevelOf(state, e.sender) >= NeededToBan(state))
  }

  predicate MayBan(e: Event, target: string, state: State) {
    IsMember(state, e.sender, Join) && Outranks(e, target, NeededToBan(state), state)
  }

  predicate MayKnock(e: Event, target: string, state: State) {
    && e.sender == target && TakesKnocks(e.version, RuleIn(state))
    && !IsMember(state, target, Join) && !IsMember(state, target, Invite) && !IsMember(state, target, Ban)
  }

  predicate MayChangeTo(e: Event, membership: Membership, target: string, state: State) {
    match membership
    case Invite => MayInvite(e, target, state)
    case Join => MayJoin(e, target, state)
    case Leave => MayLeave(e, target, state)
    case Ban => MayBan(e, target, state)
    case Knock => MayKnock(e, target, state)
    case OtherMembership(_) => false
  }

  predicate MembershipAllowed(e: Event, state: State) {
    && e.content.membership.Some? && e.stateKey.Some?
    && var membership, target := e.content.membership.value, e.stateKey.value;
    && (membership == Join ==> !CreatorMissing(e, state))
    && (|| (membership == Join && FoundsRoom(e, target, state))
        || (&& HasServer(e.roomId) && HasServer(target) && (SameServer(e.roomId, target) || Federates(state))
            && Readable(e, target, state)
            && MayChangeTo(e, membership, target, state)))
  }

  // ----- The code follows the table -----

  lemma PartiesAreReadable(e: Event, target: string, state: State)
    ensures PartiesIn(e, target, state).Ok? <==> Readable(e, target, state)
    ensures Readable(e, target, state) ==>
              var p := PartiesIn(e, target, state).value;
              && p.userLevel == LevelOf(state, e.sender) && p.targetLevel == LevelOf(state, target)
              && (forall m: Membership :: p.caller == Some(m) <==> IsMember(state, e.sender, m))
              && (forall m: Membership :: p.target == Some(m) <==> IsMember(state, target, m))
  {
    MembershipsAgree(state, e.sender);
    MembershipsAgree(state, target);
    LevelsAgree(state, e.sender);
    LevelsAgree(state, target);
  }

  lemma AuthoriserExactly(e: Event, state: State)
    ensures CheckAuthoriser(e, state).Ok? <==> VouchedFor(e, state)
  {
    if e.content.authorisingUser.Some? {
      MembershipsAgree(state, e.content.authorisingUser.value);
      LevelsAgree(state, e.content.authorisingUser.value);
    }
  }

  lemma ProvenInviteExactly(e: Event, target: string, signed: SignedInvite, state: State)
    ensures VerifiedThirdPartyInvite(e, target, signed, state) <==> ProvenInvite(e, target, signed, state)
  {
  }

  lemma TransitionExactly(e: Event, membership: Membership, target: string, state: State)
    requires Readable(e, target, state)
    ensures CheckTransition(e, membership, target, PartiesIn(e, target, state).value, state).Ok?
       <==> MayChangeTo(e, membership, target, state)
  {
    PartiesAreReadable(e, target, state);
    AuthoriserExactly(e, state);
    LevelsAgree(state, e.sender);
    RulesAgree(state, e.version, RuleIn(state));
    if e.content.thirdPartyInvite.Some? {
      ProvenInviteExactly(e, target, e.content.thirdPartyInvite.value, state);
    }
  }

  lemma CreatorJoinExactly(e: Event, membership: Membership, target: string, state: State)
    ensures IsCreatorJoin(e, membership, target, state).Err? <==> membership == Join && CreatorMissing(e, state)
    ensures IsCreatorJoin(e, membership, target, state) == Ok(true)
       <==> membership == Join && FoundsRoom(e, target, state)
  {
    CreatorsAgree(state, e.version, target);
    assert |e.prevEventIds| == 1 ==> e.prevEventIds == [e.prevEventIds[0]];
  }

  /** The membership check lets an event through exactly when the table does. */
  lemma MembershipExactly(e: Event, state: State)
    ensures CheckMembershipChange(e, state).Ok? <==> MembershipAllowed(e, state)
  {
    if e.content.membership.Some? && e.stateKey.Some? {
      var membership, target := e.content.membership.value, e.stateKey.value;
      ServersAgree(e.roomId);
      ServersAgree(target);
      CreatorsAgree(state, e.version, target);
      CreatorJoinExactly(e, membership, target, state);
      PartiesAreReadable(e, target, state);
      if Readable(e, target, state) {
        TransitionExactly(e, membership, target, state);
      }
    }
  }

  /** A stranger nobody vouches for gets into a room, if their server may take part, exactly if its join rule is public.
      A room without a join rules event, or with one that names no rule, is not. */
  lemma StrangersNeedPublicRooms(e: Event, state: State)
    requires e.content.membership == Some(Join) && e.stateKey == Some(e.sender) && e.content.authorisingUser.None?
    requires StateKey(RoomMember, e.sender) !in state && LevelsReadable(state)
    requires HasServer(e.roomId) && HasServer(e.sender) && (SameServer(e.roomId, e.sender) || Federates(state))
    requires !FollowsCreate(e, state)
    ensures CheckMembershipChange(e, state).Ok?
       <==> StateKey(RoomJoinRules, "") in state
            && state[StateKey(RoomJoinRules, "")].content.joinRule == Some(PublicRule)
  {
    MembershipExactly(e, state);
  }
}
