/**
 * backend/src/controllers/userController.js: the register validator and the
 * friend handlers as methods on the user store. Each friend handler loads
 * the two records it needs, rewrites their lists step by step, and writes
 * both back; its contract ties the answer and the new store to the pure
 * transition of FriendGraph, whose properties FriendInvariants and
 * FriendProperties prove.
 */
module UserController {
  import opened Common
  import opened IdLists
  import opened JsValues
  import opened FriendGraph
  import FriendInvariants

  // ---------------------------------------------------------------------------
  // register

  /** The request body; a missing body is one whose fields are all Missing. */
  datatype RegisterBody = RegisterBody(
    loginName: BodyField, password: BodyField, firstName: BodyField, lastName: BodyField,
    location: Option<string>, description: Option<string>, occupation: Option<string>)

  datatype Role = UserRole | AdminRole

  datatype NewUser = NewUser(
    loginName: string, password: string, firstName: string, lastName: string,
    location: string, description: string, occupation: string, role: Role)

  datatype RegisterError = LoginNameRequired | PasswordRequired | FirstNameRequired | LastNameRequired | LoginNameTaken

  /** A destructuring default: `undefined` becomes "". */
  function OrEmpty(o: Option<string>): string
  {
    if o.Some? then o.value else ""
  }

  /**
   * register: the four required fields are checked in order, then the
   * trimmed login name must not be taken; the stored names and password are
   * trimmed and the role takes its default.
   */
  function Register(body: RegisterBody, taken: set<string>): (r: Result<NewUser, RegisterError>)
    ensures r == Failure(LoginNameRequired) <==> !Filled(body.loginName)
    ensures r == Failure(PasswordRequired) <==> Filled(body.loginName) && !Filled(body.password)
    ensures r == Failure(FirstNameRequired) <==>
      Filled(body.loginName) && Filled(body.password) && !Filled(body.firstName)
    ensures r == Failure(LastNameRequired) <==>
      Filled(body.loginName) && Filled(body.password) && Filled(body.firstName) && !Filled(body.lastName)
    ensures r == Failure(LoginNameTaken) <==>
      && Filled(body.loginName) && Filled(body.password) && Filled(body.firstName) && Filled(body.lastName)
      && Trim(body.loginName.s) in taken
    ensures r.Success? ==>
      && r.value.loginName !in taken
      && r.value.loginName == Trim(body.loginName.s) && r.value.password == Trim(body.password.s)
      && r.value.firstName == Trim(body.firstName.s) && r.value.lastName == Trim(body.lastName.s)
      && r.value.location == OrEmpty(body.location)
      && r.value.description == OrEmpty(body.description)
      && r.value.occupation == OrEmpty(body.occupation)
      && r.value.role == UserRole
  {
    if !Filled(body.loginName) then Failure(LoginNameRequired)
    else if !Filled(body.password) then Failure(PasswordRequired)
    else if !Filled(body.firstName) then Failure(FirstNameRequired)
    else if !Filled(body.lastName) then Failure(LastNameRequired)
    else if Trim(body.loginName.s) in taken then Failure(LoginNameTaken)
    else Success(NewUser(
      Trim(body.loginName.s), Trim(body.password.s), Trim(body.firstName.s), Trim(body.lastName.s),
      OrEmpty(body.location), OrEmpty(body.description), OrEmpty(body.occupation), UserRole))
  }

  /** What register stores is non-blank and already trimmed. */
  lemma RegisteredNamesTrimmed(body: RegisterBody, taken: set<string>)
    requires Register(body, taken).Success?
    ensures var u := Register(body, taken).value;
      && u.loginName != "" && Trim(u.loginName) == u.loginName
      && u.password != "" && Trim(u.password) == u.password
      && u.firstName != "" && Trim(u.firstName) == u.firstName
      && u.lastName != "" && Trim(u.lastName) == u.lastName
  {
    TrimIdempotent(body.loginName.s);
    TrimIdempotent(body.password.s);
    TrimIdempotent(body.firstName.s);
    TrimIdempotent(body.lastName.s);
  }

  /** Login names stay unique: the same body registered again, once its name is taken, is refused. */
  lemma RegisterTwiceRefused(body: RegisterBody, taken: set<string>)
    requires Register(body, taken).Success?
    ensures Register(body, taken + {Register(body, taken).value.loginName}) == Failure(LoginNameTaken)
  {
  }

  /** Surrounding whitespace on the login name does not get around the uniqueness check. */
  lemma RegisterPaddedLoginRefused(body: RegisterBody, taken: set<string>, pad: string)
    requires Register(body, taken).Success? && AllWhitespace(pad)
    ensures var padded := body.(loginName := Text(pad + body.loginName.s + pad));
      Register(padded, taken + {Register(body, taken).value.loginName}) == Failure(LoginNameTaken)
  {
    var s := body.loginName.s;
    var p := pad + s + pad;
    TrimAroundWhitespace(pad, s);
    assert Trim(p) == Trim(s);
    assert Trim(p) != "";
  }

  /** Trimming ignores whitespace added on both sides. */
  lemma TrimAroundWhitespace(pad: string, s: string)
    requires AllWhitespace(pad)
    ensures Trim(pad + s + pad) == Trim(s)
  {
    TrimStartPadded(pad, s + pad);
    assert pad + s + pad == pad + (s + pad);
    TrimStartAppend(s, pad);
    TrimEndPadded(TrimStart(s), pad);
    if AllWhitespace(s) {
      TrimAllWhitespace(s);
    }
  }

  lemma {:induction false} TrimStartPadded(pad: string, s: string)
    requires AllWhitespace(pad)
    ensures TrimStart(pad + s) == TrimStart(s)
  {
    if pad != [] {
      assert (pad + s)[1..] == pad[1..] + s;
      TrimStartPadded(pad[1..], s);
    } else {
      assert pad + s == s;
    }
  }

  /** Whitespace appended after a non-blank string survives TrimStart. */
  lemma TrimStartAppend(s: string, pad: string)
    requires AllWhitespace(pad)
    ensures TrimStart(s + pad) == TrimStart(s) + pad || (AllWhitespace(s) && TrimStart(s + pad) == [])
  {
    TrimStartAppendRec(s, pad);
  }

  lemma {:induction false} TrimStartAppendRec(s: string, pad: string)
    requires AllWhitespace(pad)
    ensures TrimStart(s + pad) == TrimStart(s) + pad || (AllWhitespace(s) && TrimStart(s + pad) == [])
  {
    if s == [] {
      assert s + pad == pad;
      assert TrimStart(pad) == [] by { TrimAllWhitespace(pad); }
    } else if !IsWhitespace(s[0]) {
    } else {
      assert (s + pad)[1..] == s[1..] + pad;
      TrimStartAppendRec(s[1..], pad);
    }
  }

  lemma {:induction false} TrimAllWhitespace(s: string)
    requires AllWhitespace(s)
    ensures TrimStart(s) == []
  {
    if s != [] {
      TrimAllWhitespace(s[1..]);
    }
  }

  lemma {:induction false} TrimEndPadded(s: string, pad: string)
    requires AllWhitespace(pad)
    ensures TrimEnd(s + pad) == TrimEnd(s) || (s == [] && TrimEnd(pad) == [])
  {
    if pad != [] {
      var p := pad[..|pad| - 1];
      assert (s + pad)[..|s + pad| - 1] == s + p;
      TrimEndPadded(s, p);
    } else {
      assert s + pad == s;
    }
  }

  // ---------------------------------------------------------------------------
  // The friend handlers

  class UserStore {
    /** The user collection: each user's relationship lists. */
    var users: Store

    ghost predicate Valid()
      reads this
    {
      FriendGraph.Valid(users)
    }

    constructor (initial: Store)
      ensures users == initial
    {
      users := initial;
    }

    /** A registered user starts with empty lists (backend/src/models/User.js:22-33). */
    method AddUser(id: UserId)
      requires id !in users
      modifies this
      ensures users == old(users)[id := Relations([], [], [])]
      ensures old(Valid()) ==> Valid()
    {
      ghost var s := users;
      users := users[id := Relations([], [], [])];
      if FriendGraph.Valid(s) { FriendInvariants.AddUserPreservesValid(s, id); }
    }

    method GetFriendStatus(current: Option<UserId>, target: UserId) returns (r: Result<FriendStatus, FriendError>)
      ensures r == Status(users, current, target)
    {
      if current.None? { return Failure(Unauthenticated); }
      var me := current.value;
      if target == me { return Success(Self); }
      if target !in users { return Failure(UserNotFound); }
      if me !in users { return Failure(Unauthenticated); }
      var currentUser := users[me];
      if HasId(currentUser.friends, target) { return Success(Friends); }
      if HasId(currentUser.incomingRequests, target) { return Success(Incoming); }
      if HasId(currentUser.outgoingRequests, target) { return Success(Outgoing); }
      return Success(Unrelated);
    }

    method SendFriendRequest(current: Option<UserId>, target: UserId) returns (r: Result<FriendStatus, FriendError>)
      modifies this
      ensures r == SendRequest(old(users), current, target).outcome
      ensures users == SendRequest(old(users), current, target).store
      ensures old(Valid()) ==> Valid()
    {
      ghost var s := users;
      if current.None? { return Failure(Unauthenticated); }
      var me := current.value;
      if target == me { return Failure(CannotFriendYourself); }
      if me !in users { return Failure(Unauthenticated); }
      if target !in users { return Failure(UserNotFound); }
      var currentUser, targetUser := users[me], users[target];
      if HasId(currentUser.friends, target) { return Failure(AlreadyFriends); }

      if HasId(currentUser.incomingRequests, target) {
        currentUser := currentUser.(incomingRequests := RemoveId(currentUser.incomingRequests, target));
        targetUser := targetUser.(outgoingRequests := RemoveId(targetUser.outgoingRequests, me));
        if !HasId(currentUser.friends, target) { currentUser := currentUser.(friends := currentUser.friends + [target]); }
        if !HasId(targetUser.friends, me) { targetUser := targetUser.(friends := targetUser.friends + [me]); }
        users := users[me := currentUser][target := targetUser];
        if FriendGraph.Valid(s) { FriendInvariants.SendPreservesValid(s, current, target); }
        return Success(Friends);
      }

      if HasId(currentUser.outgoingRequests, target) || HasId(targetUser.incomingRequests, me) {
        return Failure(RequestAlreadySent);
      }

      currentUser := currentUser.(outgoingRequests := currentUser.outgoingRequests + [target]);
      targetUser := targetUser.(incomingRequests := targetUser.incomingRequests + [me]);
      users := users[me := currentUser][target := targetUser];
      if FriendGraph.Valid(s) { FriendInvariants.SendPreservesValid(s, current, target); }
      return Success(Outgoing);
    }

    method AcceptFriendRequest(current: Option<UserId>, requester: UserId) returns (r: Result<FriendStatus, FriendError>)
      modifies this
      ensures r == Accept(old(users), current, requester).outcome
      ensures users == Accept(old(users), current, requester).store
      ensures old(Valid()) ==> Valid()
    {
      ghost var s := users;
      if current.None? { return Failure(Unauthenticated); }
      var me := current.value;
      if me !in users { return Failure(Unauthenticated); }
      if requester !in users { return Failure(UserNotFound); }
      var currentUser, requesterUser := users[me], users[requester];
      if !HasId(currentUser.incomingRequests, requester) { return Failure(NoRequestToAccept); }

      currentUser := currentUser.(incomingRequests := RemoveId(currentUser.incomingRequests, requester));
      requesterUser := requesterUser.(outgoingRequests := RemoveId(requesterUser.outgoingRequests, me));
      if !HasId(currentUser.friends, requester) { currentUser := currentUser.(friends := currentUser.friends + [requester]); }
      if !HasId(requesterUser.friends, me) { requesterUser := requesterUser.(friends := requesterUser.friends + [me]); }
      users := users[me := currentUser][requester := requesterUser];
      if FriendGraph.Valid(s) { FriendInvariants.AcceptPreservesValid(s, current, requester); }
      return Success(Friends);
    }

    method RejectFriendRequest(current: Option<UserId>, requester: UserId) returns (r: Result<FriendStatus, FriendError>)
      modifies this
      ensures r == Reject(old(users), current, requester).outcome
      ensures users == Reject(old(users), current, requester).store
      ensures old(Valid()) ==> Valid()
    {
      ghost var s := users;
      if current.None? || current.value !in users { return Failure(Unauthenticated); }
      var me := current.value;
      if requester !in users { return Failure(UserNotFound); }
      var currentUser, requesterUser := users[me], users[requester];
      currentUser := currentUser.(incomingRequests := RemoveId(currentUser.incomingRequests, requester));
      requesterUser := requesterUser.(outgoingRequests := RemoveId(requesterUser.outgoingRequests, me));
      users := users[me := currentUser][requester := requesterUser];
      if FriendGraph.Valid(s) { FriendInvariants.RejectPreservesValid(s, current, requester); }
      return Success(Unrelated);
    }

    method CancelFriendRequest(current: Option<UserId>, target: UserId) returns (r: Result<FriendStatus, FriendError>)
      modifies this
      ensures r == Cancel(old(users), current, target).outcome
      ensures users == Cancel(old(users), current, target).store
      ensures old(Valid()) ==> Valid()
    {
      ghost var s := users;
      if current.None? || current.value !in users { return Failure(Unauthenticated); }
      var me := current.value;
      if target !in users { return Failure(UserNotFound); }
      var currentUser, targetUser := users[me], users[target];
      currentUser := currentUser.(outgoingRequests := RemoveId(currentUser.outgoingRequests, target));
      targetUser := targetUser.(incomingRequests := RemoveId(targetUser.incomingRequests, me));
      users := users[me := currentUser][target := targetUser];
      if FriendGraph.Valid(s) { FriendInvariants.CancelPreservesValid(s, current, target); }
      return Success(Unrelated);
    }

    method UnfriendUser(current: Option<UserId>, target: UserId) returns (r: Result<FriendStatus, FriendError>)
      modifies this
      ensures r == Unfriend(old(users), current, target).outcome
      ensures users == Unfriend(old(users), current, target).store
      ensures old(Valid()) ==> Valid()
    {
      ghost var s := users;
      if current.None? || current.value !in users { return Failure(Unauthenticated); }
      var me := current.value;
      if target !in users { return Failure(UserNotFound); }
      var currentUser, targetUser := users[me], users[target];
      currentUser := currentUser.(friends := RemoveId(currentUser.friends, target));
      targetUser := targetUser.(friends := RemoveId(targetUser.friends, me));
      currentUser := currentUser.(incomingRequests := RemoveId(currentUser.incomingRequests, target));
      currentUser := currentUser.(outgoingRequests := RemoveId(currentUser.outgoingRequests, target));
      targetUser := targetUser.(incomingRequests := RemoveId(targetUser.incomingRequests, me));
      targetUser := targetUser.(outgoingRequests := RemoveId(targetUser.outgoingRequests, me));
      users := users[me := currentUser][target := targetUser];
      if FriendGraph.Valid(s) { FriendInvariants.UnfriendPreservesValid(s, current, target); }
      return Success(Unrelated);
    }
  }
}
