/** The server actions of web/src/app/actions/availability.ts and
    web/src/app/actions/tent.ts as operations on an in-memory store standing for
    the `tents`, `profiles` and `availabilities` tables. The signed-in user the
    session resolves to, the random join code and the generated tent id are
    parameters. */
module Actions {
  import opened Seqs
  import opened Text
  import opened Types

  datatype AuthUser = AuthUser(id: string, email: Option<string>)

  /** A row of `profiles`, keyed by the user id. */
  datatype Profile = Profile(fullName: Option<string>, tentId: Option<string>, role: Role)

  /** A row of `tents`. */
  datatype Tent = Tent(id: string, name: string, joinCode: string, tentType: Phase)

  /** The errors the actions throw; ConstraintViolation stands for an insert the
      database refuses (a taken key or join code, a text outside the enum). */
  datatype ActionError =
    | Unauthorized
    | NoTentFound
    | NameAndTypeRequired
    | JoinCodeRequired
    | InvalidJoinCode
    | ConstraintViolation

  datatype Outcome = Done | Failed(error: ActionError)

  predicate HasTentId(tents: seq<Tent>, id: string)
  {
    exists i :: 0 <= i < |tents| && tents[i].id == id
  }

  predicate HasJoinCode(tents: seq<Tent>, code: string)
  {
    exists i :: 0 <= i < |tents| && tents[i].joinCode == code
  }

  /** A form field counts as given when it is present and not empty (`!value`). */
  predicate Given(field: Option<string>)
  {
    field.Some? && field.value != ""
  }

  /** The tent a user's availabilities go to: their profile's tentId, which must
      be present and not empty (`!userProfile || !userProfile.tentId`). */
  function ProfileTent(profiles: map<string, Profile>, userId: string): (r: Option<string>)
    ensures r.Some? <==> userId in profiles && Given(profiles[userId].tentId)
    ensures r.Some? ==> r == profiles[userId].tentId
  {
    if userId in profiles && Given(profiles[userId].tentId) then profiles[userId].tentId else None
  }

  /** `db.query.tents.findFirst({ where: eq(tents.joinCode, code) })`. */
  function FindTentByCode(tents: seq<Tent>, code: string): (r: Option<Tent>)
    ensures r.None? <==> !HasJoinCode(tents, code)
    ensures r.Some? ==> r.value in tents && r.value.joinCode == code
  {
    Find((t: Tent) => t.joinCode == code, tents)
  }

  /** The profile upsert both tent actions end with: a new profile takes the
      e-mail as its name; an existing one changes only tent and role. */
  function UpsertProfile(profiles: map<string, Profile>, user: AuthUser, tentId: string, role: Role): map<string, Profile>
  {
    if user.id in profiles then profiles[user.id := profiles[user.id].(tentId := Some(tentId), role := role)]
    else profiles[user.id := Profile(user.email, Some(tentId), role)]
  }

  lemma UpsertProfileSpec(profiles: map<string, Profile>, user: AuthUser, tentId: string, role: Role)
    ensures var p := UpsertProfile(profiles, user, tentId, role);
      && p.Keys == profiles.Keys + {user.id}
      && p[user.id].tentId == Some(tentId) && p[user.id].role == role
      && p[user.id].fullName == (if user.id in profiles then profiles[user.id].fullName else user.email)
      && forall id :: id in profiles && id != user.id ==> p[id] == profiles[id]
  {
  }

  /** Upserting the same tent and role twice is upserting once. */
  lemma UpsertProfileIdempotent(profiles: map<string, Profile>, user: AuthUser, tentId: string, role: Role)
    ensures var once := UpsertProfile(profiles, user, tentId, role);
      UpsertProfile(once, user, tentId, role) == once
  {
  }

  class Database {
    var tents: seq<Tent>
    var profiles: map<string, Profile>
    var availabilities: seq<AvailabilityRow>

    /** The table constraints: unique tent ids and join codes, and every foreign
        key naming an existing row. */
    predicate Valid()
      reads this
    {
      && (forall i, j :: 0 <= i < j < |tents| ==> tents[i].id != tents[j].id && tents[i].joinCode != tents[j].joinCode)
      && (forall id :: id in profiles && profiles[id].tentId.Some? ==> HasTentId(tents, profiles[id].tentId.value))
      && (forall k :: 0 <= k < |availabilities| ==>
            availabilities[k].userId in profiles && HasTentId(tents, availabilities[k].tentId))
    }

    constructor ()
      ensures Valid()
      ensures tents == [] && profiles == map[] && availabilities == []
    {
      tents := [];
      profiles := map[];
      availabilities := [];
    }

    /** `updateAvailability`: after the user and tent checks, one row is appended;
        rows overlapping it are left as they are and the range is not checked. */
    method UpdateAvailability(user: Option<AuthUser>, startTime: int, endTime: int, status: AvailabilityStatus)
      returns (r: Outcome)
      requires Valid()
      modifies this
      ensures Valid()
      ensures tents == old(tents) && profiles == old(profiles)
      ensures user.None? ==> r == Failed(Unauthorized) && availabilities == old(availabilities)
      ensures user.Some? && ProfileTent(profiles, user.value.id).None? ==>
        r == Failed(NoTentFound) && availabilities == old(availabilities)
      ensures user.Some? && ProfileTent(profiles, user.value.id).Some? ==>
        && r == Done
        && availabilities == old(availabilities)
             + [AvailabilityRow(user.value.id, ProfileTent(profiles, user.value.id).value, startTime, endTime, status)]
    {
      if user.None? {
        return Failed(Unauthorized);
      }
      var tentId := ProfileTent(profiles, user.value.id);
      if tentId.None? {
        return Failed(NoTentFound);
      }
      availabilities := availabilities + [AvailabilityRow(user.value.id, tentId.value, startTime, endTime, status)];
      r := Done;
    }

    /** `createTent`: after the user and form checks, insert the tent under an
        upper-cased code and make the user its captain. `rawCode` is the
        six-character `nanoid(6)` and `newTentId` the id the database generates. */
    method CreateTent(user: Option<AuthUser>, name: Option<string>, tentType: Option<string>,
                      rawCode: string, newTentId: string)
      returns (r: Outcome)
      requires Valid()
      requires |rawCode| == 6
      modifies this
      ensures Valid()
      ensures availabilities == old(availabilities)
      ensures user.None? ==> r == Failed(Unauthorized)
      ensures user.Some? && !(Given(name) && Given(tentType)) ==> r == Failed(NameAndTypeRequired)
      ensures r.Failed? ==> tents == old(tents) && profiles == old(profiles)
      ensures r.Done? <==>
        && user.Some? && Given(name) && Given(tentType)
        && ParsePhase(tentType.value).Some?
        && !HasTentId(old(tents), newTentId) && !HasJoinCode(old(tents), ToUpper(rawCode))
      ensures r.Done? ==>
        && tents == old(tents) + [Tent(newTentId, name.value, ToUpper(rawCode), ParsePhase(tentType.value).value)]
        && profiles == UpsertProfile(old(profiles), user.value, newTentId, CaptainRole)
    {
      if user.None? {
        return Failed(Unauthorized);
      }
      if !Given(name) || !Given(tentType) {
        return Failed(NameAndTypeRequired);
      }
      var joinCode := ToUpper(rawCode);
      var phase := ParsePhase(tentType.value);
      if phase.None? || HasTentId(tents, newTentId) || HasJoinCode(tents, joinCode) {
        return Failed(ConstraintViolation);
      }
      var tent := Tent(newTentId, name.value, joinCode, phase.value);
      tents := tents + [tent];
      assert HasTentId(tents, newTentId) by { assert tents[|tents| - 1] == tent; }
      assert forall id :: HasTentId(old(tents), id) ==> HasTentId(tents, id) by {
        forall id | HasTentId(old(tents), id) ensures HasTentId(tents, id) {
          var i :| 0 <= i < |old(tents)| && old(tents)[i].id == id;
          assert tents[i] == old(tents)[i];
        }
      }
      profiles := UpsertProfile(profiles, user.value, newTentId, CaptainRole);
      r := Done;
    }

    /** `joinTent`: after the user and code checks, make the user a member of the
        tent holding exactly that code, whatever their role was. */
    method JoinTent(user: Option<AuthUser>, code: Option<string>) returns (r: Outcome)
      requires Valid()
      modifies this
      ensures Valid()
      ensures tents == old(tents) && availabilities == old(availabilities)
      ensures user.None? ==> r == Failed(Unauthorized)
      ensures user.Some? && !Given(code) ==> r == Failed(JoinCodeRequired)
      ensures user.Some? && Given(code) && !HasJoinCode(tents, code.value) ==> r == Failed(InvalidJoinCode)
      ensures r.Failed? ==> profiles == old(profiles)
      ensures r.Done? <==> user.Some? && Given(code) && HasJoinCode(tents, code.value)
      ensures r.Done? ==>
        profiles == UpsertProfile(old(profiles), user.value, FindTentByCode(tents, code.value).value.id, MemberRole)
    {
      if user.None? {
        return Failed(Unauthorized);
      }
      if !Given(code) {
        return Failed(JoinCodeRequired);
      }
      var tent := FindTentByCode(tents, code.value);
      if tent.None? {
        return Failed(InvalidJoinCode);
      }
      assert HasTentId(tents, tent.value.id) by {
        var i :| 0 <= i < |tents| && tents[i] == tent.value;
      }
      profiles := UpsertProfile(profiles, user.value, tent.value.id, MemberRole);
      r := Done;
    }
  }

  /** Join codes are stored upper-cased and six characters long. */
  lemma JoinCodeShape(rawCode: string)
    requires |rawCode| == 6
    ensures |ToUpper(rawCode)| == 6
    ensures forall i :: 0 <= i < 6 ==> !IsAsciiLower(ToUpper(rawCode)[i])
  {
  }

  /** Codes are matched exactly: a code typed in lower case finds no tent when the
      stored codes are all upper case. */
  lemma LowerCaseCodeNotFound(tents: seq<Tent>, code: string, i: nat)
    requires i < |code| && IsAsciiLower(code[i])
    requires forall k, j :: 0 <= k < |tents| && 0 <= j < |tents[k].joinCode| ==> !IsAsciiLower(tents[k].joinCode[j])
    ensures FindTentByCode(tents, code).None?
  {
  }

  /** A second identical submission of a range stores the row twice: the insert
      in `updateAvailability` checks no key on the range, so a repeated drag
      duplicates rows. */
  method ResubmitTwice(db: Database, user: AuthUser, startTime: int, endTime: int, status: AvailabilityStatus)
    returns (r1: Outcome, r2: Outcome)
    requires db.Valid() && ProfileTent(db.profiles, user.id).Some?
    modifies db
    ensures r1 == Done && r2 == Done
    ensures var row := AvailabilityRow(user.id, ProfileTent(old(db.profiles), user.id).value, startTime, endTime, status);
      db.availabilities == old(db.availabilities) + [row, row]
  {
    r1 := db.UpdateAvailability(Some(user), startTime, endTime, status);
    r2 := db.UpdateAvailability(Some(user), startTime, endTime, status);
  }
}
