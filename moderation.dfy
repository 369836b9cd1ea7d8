/**
 * The citizen moderation handlers of the backend (`moderationController.js`):
 * strikes, bans and unbans as guarded updates of the Citizen row that belongs to
 * a user, and the two read-only moderation queries. The users table with its
 * Citizen profiles is an in-memory map; the clock is the parameter `now`.
 * A request field that is absent (or empty, which JavaScript treats alike) is `""`.
 */
module Moderation {
  import opened Wrappers
  import opened Http

  type Uid = string

  /** A Citizen profile; `bannedAt` is a timestamp, `None` for SQL NULL. */
  datatype Citizen = Citizen(ward: string, strikes: nat, isBanned: bool,
                             bannedAt: Option<int>, banReason: Option<string>)

  /** A user row with its optional Citizen profile (`include: [{ model: Citizen }]`). */
  datatype User = User(email: string, citizen: Option<Citizen>)

  datatype StrikeReport = StrikeReport(userId: Uid, strikes: nat, shouldBan: bool, isBanned: bool)
  datatype BanReport = BanReport(userId: Uid, bannedAt: int, banReason: string)
  datatype UnbanReport = UnbanReport(userId: Uid, strikes: nat)
  datatype UserReport = UserReport(userId: Uid, email: string, strikes: nat, isBanned: bool,
                                   bannedAt: Option<int>, banReason: Option<string>, ward: string)
  datatype OwnReport = OwnReport(strikes: nat, isBanned: bool, bannedAt: Option<int>, banReason: Option<string>)

  /** The strike count from which a ban is advised. */
  const StrikeLimit := 5
  const DefaultBanReason := "Accumulated 5 or more strikes for policy violations"

  /** The ban fields agree: a banned citizen has a ban time and a reason, one not
      banned has neither. */
  predicate BanFieldsAgree(c: Citizen) {
    c.isBanned == c.bannedAt.Some? && c.isBanned == c.banReason.Some?
  }

  /** The guard every handler starts with: a `citizenUid`, a user with that id, and
      a Citizen profile for that user. */
  function FindCitizen(users: map<Uid, User>, citizenUid: Uid): (r: Reply<Citizen>)
    ensures r.Ok? <==> citizenUid != "" && citizenUid in users && users[citizenUid].citizen.Some?
    ensures r.Ok? ==> users[citizenUid].citizen == Some(r.value)
    ensures r == Err(400, "citizenUid is required") <==> citizenUid == ""
    ensures r == Err(404, "User not found") <==> citizenUid != "" && citizenUid !in users
    ensures r == Err(400, "User is not a citizen") <==>
              citizenUid != "" && citizenUid in users && users[citizenUid].citizen.None?
  {
    if citizenUid == "" then Err(400, "citizenUid is required")
    else if citizenUid !in users then Err(404, "User not found")
    else match users[citizenUid].citizen
      case None => Err(400, "User is not a citizen")
      case Some(c) => Ok(c)
  }

  /** `c` after `update({ isBanned: true, bannedAt: now, banReason: reason || default })`. */
  function Banned(c: Citizen, reason: string, now: int): (b: Citizen)
    ensures b.isBanned && b.bannedAt == Some(now) && BanFieldsAgree(b)
    ensures b.banReason == Some(if reason == "" then DefaultBanReason else reason)
    ensures b.strikes == c.strikes && b.ward == c.ward
  {
    c.(isBanned := true, bannedAt := Some(now), banReason := Some(if reason == "" then DefaultBanReason else reason))
  }

  /** `c` after `update({ isBanned: false, bannedAt: null, banReason: null })`. */
  function Unbanned(c: Citizen): (u: Citizen)
    ensures !u.isBanned && u.bannedAt.None? && u.banReason.None? && BanFieldsAgree(u)
    ensures u.strikes == c.strikes && u.ward == c.ward
  {
    c.(isBanned := false, bannedAt := None, banReason := None)
  }

  /** Unbanning undoes a ban: a citizen who was not banned, with ban fields that
      agree, is back exactly as before, strikes included. */
  lemma UnbanUndoesBan(c: Citizen, reason: string, now: int)
    requires !c.isBanned && BanFieldsAgree(c)
    ensures Unbanned(Banned(c, reason, now)) == c
  {
  }

  /** The users table and the moderation handlers over it. */
  class ModerationService {
    var users: map<Uid, User>

    /** Every Citizen profile in the table has ban fields that agree. */
    ghost predicate Valid()
      reads this
    {
      forall uid :: uid in users && users[uid].citizen.Some? ==> BanFieldsAgree(users[uid].citizen.value)
    }

    constructor (users: map<Uid, User>)
      ensures this.users == users
    {
      this.users := users;
    }

    /** The table with the Citizen profile of `uid` replaced by `c`. */
    function WithCitizen(uid: Uid, c: Citizen): map<Uid, User>
      reads this
      requires uid in users
    {
      users[uid := users[uid].(citizen := Some(c))]
    }

    /** `addStrike`: one more strike and nothing else; `shouldBan` advises a ban from
        5 strikes on, but the handler never bans by itself. */
    method AddStrike(citizenUid: Uid, reason: string) returns (reply: Reply<StrikeReport>)
      modifies this
      ensures FindCitizen(old(users), citizenUid).Err? ==>
                && users == old(users)
                && reply == Err(FindCitizen(old(users), citizenUid).status, FindCitizen(old(users), citizenUid).message)
      ensures FindCitizen(old(users), citizenUid).Ok? ==>
                var c := FindCitizen(old(users), citizenUid).value;
                && users == old(WithCitizen(citizenUid, c.(strikes := c.strikes + 1)))
                && reply == Ok(StrikeReport(citizenUid, c.strikes + 1, c.strikes + 1 >= StrikeLimit, c.isBanned))
      ensures old(Valid()) ==> Valid()
    {
      var found := FindCitizen(users, citizenUid);
      if found.Err? {
        return Err(found.status, found.message);
      }
      var c := found.value;
      var newStrikeCount := c.strikes + 1;
      users := WithCitizen(citizenUid, c.(strikes := newStrikeCount));
      var shouldBan := newStrikeCount >= StrikeLimit;
      reply := Ok(StrikeReport(citizenUid, newStrikeCount, shouldBan, c.isBanned));
    }

    /** `banUser`: refused for a citizen already banned; otherwise the ban fields are set. */
    method BanUser(citizenUid: Uid, reason: string, now: int) returns (reply: Reply<BanReport>)
      modifies this
      ensures FindCitizen(old(users), citizenUid).Err? ==>
                && users == old(users)
                && reply == Err(FindCitizen(old(users), citizenUid).status, FindCitizen(old(users), citizenUid).message)
      ensures FindCitizen(old(users), citizenUid).Ok? && FindCitizen(old(users), citizenUid).value.isBanned ==>
                users == old(users) && reply == Err(400, "User is already banned")
      ensures FindCitizen(old(users), citizenUid).Ok? && !FindCitizen(old(users), citizenUid).value.isBanned ==>
                var b := Banned(FindCitizen(old(users), citizenUid).value, reason, now);
                && users == old(WithCitizen(citizenUid, b))
                && reply == Ok(BanReport(citizenUid, now, b.banReason.value))
      ensures old(Valid()) ==> Valid()
    {
      var found := FindCitizen(users, citizenUid);
      if found.Err? {
        return Err(found.status, found.message);
      }
      var c := found.value;
      if c.isBanned {
        return Err(400, "User is already banned");
      }
      var b := Banned(c, reason, now);
      users := WithCitizen(citizenUid, b);
      reply := Ok(BanReport(citizenUid, now, b.banReason.value));
    }

    /** `unbanUser`: refused for a citizen not banned; otherwise the ban fields are
        cleared and the strikes kept. */
    method UnbanUser(citizenUid: Uid) returns (reply: Reply<UnbanReport>)
      modifies this
      ensures FindCitizen(old(users), citizenUid).Err? ==>
                && users == old(users)
                && reply == Err(FindCitizen(old(users), citizenUid).status, FindCitizen(old(users), citizenUid).message)
      ensures FindCitizen(old(users), citizenUid).Ok? && !FindCitizen(old(users), citizenUid).value.isBanned ==>
                users == old(users) && reply == Err(400, "User is not currently banned")
      ensures FindCitizen(old(users), citizenUid).Ok? && FindCitizen(old(users), citizenUid).value.isBanned ==>
                var c := FindCitizen(old(users), citizenUid).value;
                && users == old(WithCitizen(citizenUid, Unbanned(c)))
                && reply == Ok(UnbanReport(citizenUid, c.strikes))
      ensures old(Valid()) ==> Valid()
    {
      var found := FindCitizen(users, citizenUid);
      if found.Err? {
        return Err(found.status, found.message);
      }
      var c := found.value;
      if !c.isBanned {
        return Err(400, "User is not currently banned");
      }
      users := WithCitizen(citizenUid, Unbanned(c));
      reply := Ok(UnbanReport(citizenUid, c.strikes));
    }

    /** `getUserModerationInfo`: the Citizen fields of one user, behind the same guard. */
    function GetUserModerationInfo(citizenUid: Uid): (r: Reply<UserReport>)
      reads this
      ensures FindCitizen(users, citizenUid).Err? <==> r.Err?
      ensures r.Err? ==> r == Err(FindCitizen(users, citizenUid).status, FindCitizen(users, citizenUid).message)
      ensures r.Ok? ==> var c := users[citizenUid].citizen.value;
        r.value == UserReport(citizenUid, users[citizenUid].email, c.strikes, c.isBanned, c.bannedAt, c.banReason, c.ward)
    {
      match FindCitizen(users, citizenUid)
      case Err(status, message) => Err(status, message)
      case Ok(c) => Ok(UserReport(citizenUid, users[citizenUid].email, c.strikes, c.isBanned, c.bannedAt, c.banReason, c.ward))
    }

    /** `getMyModerationInfo`: like the query above, except that a user without a
        Citizen profile gets the defaults (no strikes, not banned) instead of an error. */
    function GetMyModerationInfo(citizenUid: Uid): (r: Reply<OwnReport>)
      reads this
      ensures r == Err(400, "citizenUid is required") <==> citizenUid == ""
      ensures r == Err(404, "User not found") <==> citizenUid != "" && citizenUid !in users
      ensures r.Err? ==> citizenUid == "" || citizenUid !in users
      ensures citizenUid != "" && citizenUid in users && users[citizenUid].citizen.None? ==>
                r == Ok(OwnReport(0, false, None, None))
      ensures citizenUid != "" && citizenUid in users && users[citizenUid].citizen.Some? ==>
                var c := users[citizenUid].citizen.value;
                r == Ok(OwnReport(c.strikes, c.isBanned, c.bannedAt, c.banReason))
    {
      if citizenUid == "" then Err(400, "citizenUid is required")
      else if citizenUid !in users then Err(404, "User not found")
      else match users[citizenUid].citizen
        case None => Ok(OwnReport(0, false, None, None))
        // `strikes || 0` and `isBanned || false` change nothing for a non-null column
        case Some(c) => Ok(OwnReport(c.strikes, c.isBanned, c.bannedAt, c.banReason))
    }
  }
}
