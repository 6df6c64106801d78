/** The character entity: validation, PATCH merging and PUT replacement. */
module CharacterDomain {
  import opened Basics
  import opened Text

  datatype DomainError =
    | NotFound
    | InvalidName
    | InvalidGender
    | RaceNotFound
    | VersionConflict
    | CreationTokenConsumed
    | Internal

  /** Seconds on the wall clock a time value carries; its date is the day this falls on. */
  type WallTime = int

  /** The twelve business fields: the input of POST and PUT and the business part of an entity. */
  datatype Profile = Profile(
    name: string, description: string, raceId: Uuid, gender: string,
    birthDate: Option<WallTime>, birthPlace: string,
    heightCm: Option<Int16>, weightKg: Option<Int16>, bodyFat: Option<real>,
    sizeTop: Option<Int16>, sizeMiddle: Option<Int16>, sizeBottom: Option<Int16>)

  /** A PATCH: an absent field is left alone, so nothing can be cleared. */
  datatype UpdateFields = UpdateFields(
    name: Option<string>, description: Option<string>, raceId: Option<Uuid>, gender: Option<string>,
    birthDate: Option<WallTime>, birthPlace: Option<string>,
    heightCm: Option<Int16>, weightKg: Option<Int16>, bodyFat: Option<real>,
    sizeTop: Option<Int16>, sizeMiddle: Option<Int16>, sizeBottom: Option<Int16>)

  const NAME_MAX_LEN := 100
  const ALL_GENDERS := ["male", "female", "other", "unknown"]
  const EMPTY_PATCH := UpdateFields(None, None, None, None, None, None, None, None, None, None, None, None)

  predicate ValidGender(gender: string) {
    gender in ALL_GENDERS
  }

  /** Trimmed and 1..100 runes long. */
  predicate NormalName(name: string) {
    Tight(name) && 1 <= |name| <= NAME_MAX_LEN
  }

  function NormalizeName(name: string): Result<string, DomainError> {
    var n := TrimSpace(name);
    if |n| < 1 || |n| > NAME_MAX_LEN then Err(InvalidName) else Ok(n)
  }

  /** Accepted names come out normal, and a normal name is accepted as it stands. */
  lemma NormalizedNamesAreFixed(name: string)
    ensures NormalizeName(name).Ok? ==>
              NormalName(NormalizeName(name).value)
              && NormalizeName(NormalizeName(name).value) == NormalizeName(name)
    ensures NormalName(name) <==> NormalizeName(name) == Ok(name)
  {
    TrimSpaceIsTight(name);
    if Tight(name) {
      assert Padded(name, [], name, []);
      TrimSpaceIsTheCore(name, name);
    }
  }

  /** Whatever space surrounds it, a name counts by its core: accepted as that, or refused for its length in runes. */
  lemma NamesCountByTheirCore(name: string, left: string, core: string, right: string)
    requires Padded(name, left, core, right) && Tight(core)
    ensures NormalizeName(name) == if 1 <= |core| <= 100 then Ok(core) else Err(InvalidName)
  {
    TrimSpaceIsTheCore(name, core);
  }

  function Coalesce<T>(patch: Option<T>, current: Option<T>): Option<T> {
    if patch.Some? then patch else current
  }

  function CoalesceValue<T>(patch: Option<T>, current: T): T {
    if patch.Some? then patch.value else current
  }

  // ---------------------------------------------------------------- specification of PATCH and PUT

  /** What the merge of a PATCH complains about, if anything; it looks at the patch alone. */
  function PatchError(p: UpdateFields): Option<DomainError> {
    if p.name.Some? && NormalizeName(p.name.value).Err? then Some(InvalidName)
    else if p.gender.Some? && !ValidGender(p.gender.value) then Some(InvalidGender)
    else None
  }

  /** The fields after an accepted PATCH. */
  function Patched(b: Profile, p: UpdateFields): Profile
    requires PatchError(p).None?
  {
    Profile(
      if p.name.Some? then NormalizeName(p.name.value).value else b.name,
      CoalesceValue(p.description, b.description), CoalesceValue(p.raceId, b.raceId),
      CoalesceValue(p.gender, b.gender), Coalesce(p.birthDate, b.birthDate),
      CoalesceValue(p.birthPlace, b.birthPlace), Coalesce(p.heightCm, b.heightCm),
      Coalesce(p.weightKg, b.weightKg), Coalesce(p.bodyFat, b.bodyFat), Coalesce(p.sizeTop, b.sizeTop),
      Coalesce(p.sizeMiddle, b.sizeMiddle), Coalesce(p.sizeBottom, b.sizeBottom))
  }

  function ReplaceError(f: Profile): Option<DomainError> {
    if NormalizeName(f.name).Err? then Some(InvalidName)
    else if !ValidGender(f.gender) then Some(InvalidGender)
    else None
  }

  /** An accepted input as it is stored: only the name is normalized. */
  function Accepted(f: Profile): Profile
    requires ReplaceError(f).None?
  {
    f.(name := NormalizeName(f.name).value)
  }

  predicate KnownGender(gender: string) {
    gender == "male" || gender == "female" || gender == "other" || gender == "unknown"
  }

  /** PUT and POST refuse exactly bad names and, failing that, unknown genders. */
  lemma PutIsRefusedIff(f: Profile, left: string, core: string, right: string)
    requires Padded(f.name, left, core, right) && Tight(core)
    ensures ReplaceError(f) == if !(1 <= |core| <= 100) then Some(InvalidName)
                               else if !KnownGender(f.gender) then Some(InvalidGender)
                               else None
  {
    NamesCountByTheirCore(f.name, left, core, right);
    assert ALL_GENDERS == ["male", "female", "other", "unknown"];
  }

  /** PATCH refuses the same of what it names, and nothing else. */
  lemma PatchIsRefusedIff(p: UpdateFields, left: string, core: string, right: string)
    requires p.name.Some? ==> Padded(p.name.value, left, core, right) && Tight(core)
    ensures PatchError(p) == if p.name.Some? && !(1 <= |core| <= 100) then Some(InvalidName)
                             else if p.gender.Some? && !KnownGender(p.gender.value) then Some(InvalidGender)
                             else None
  {
    if p.name.Some? {
      NamesCountByTheirCore(p.name.value, left, core, right);
    }
    assert ALL_GENDERS == ["male", "female", "other", "unknown"];
  }

  /** One write of a client: a partial or a full update. */
  datatype Op = Patch(p: UpdateFields) | Put(f: Profile)

  function OpError(op: Op): Option<DomainError> {
    match op
    case Patch(p) => PatchError(p)
    case Put(f) => ReplaceError(f)
  }

  function ApplyOp(b: Profile, op: Op): Profile
    requires OpError(op).None?
  {
    match op
    case Patch(p) => Patched(b, p)
    case Put(f) => Accepted(f)
  }

  // ---------------------------------------------------------------- the entity

  /** The entity in memory; the twelve business fields are one record, assigned field by field. */
  class Character {
    var id: Uuid
    var business: Profile
    var raceName: string
    var version: int
    var createdAt: int
    var updatedAt: int
    var creationToken: Option<string>
    var replayed: bool

    constructor (id: Uuid, b: Profile, raceName: string, version: int,
                 createdAt: int, updatedAt: int, token: Option<string>)
      ensures this.id == id && business == b && this.raceName == raceName && this.version == version
      ensures this.createdAt == createdAt && this.updatedAt == updatedAt
      ensures creationToken == token && !replayed
    {
      this.id, business, this.raceName, this.version := id, b, raceName, version;
      this.createdAt, this.updatedAt, creationToken, replayed := createdAt, updatedAt, token, false;
    }

    /** PATCH in memory. A refused gender leaves the fields assigned before it half merged. */
    method Update(p: UpdateFields) returns (err: Option<DomainError>)
      modifies `business
      ensures err == PatchError(p)
      ensures err.None? ==> business == Patched(old(business), p)
      ensures err == Some(InvalidName) ==> business == old(business)
      ensures err == Some(InvalidGender) ==>
                business == old(business).(
                  name := if p.name.Some? then NormalizeName(p.name.value).value else old(business).name,
                  description := if p.description.Some? then p.description.value else old(business).description,
                  raceId := if p.raceId.Some? then p.raceId.value else old(business).raceId)
    {
      if p.name.Some? {
        var n := NormalizeName(p.name.value);
        if n.Err? {
          return Some(n.error);
        }
        business := business.(name := n.value);
      }
      if p.description.Some? {
        business := business.(description := p.description.value);
      }
      if p.raceId.Some? {
        business := business.(raceId := p.raceId.value);
      }
      if p.gender.Some? {
        if !ValidGender(p.gender.value) {
          return Some(InvalidGender);
        }
        business := business.(gender := p.gender.value);
      }
      business := business.(birthDate := Coalesce(p.birthDate, business.birthDate));
      business := business.(birthPlace := CoalesceValue(p.birthPlace, business.birthPlace));
      business := business.(heightCm := Coalesce(p.heightCm, business.heightCm));
      business := business.(weightKg := Coalesce(p.weightKg, business.weightKg));
      business := business.(bodyFat := Coalesce(p.bodyFat, business.bodyFat));
      business := business.(sizeTop := Coalesce(p.sizeTop, business.sizeTop));
      business := business.(sizeMiddle := Coalesce(p.sizeMiddle, business.sizeMiddle));
      business := business.(sizeBottom := Coalesce(p.sizeBottom, business.sizeBottom));
      return None;
    }

    /** PUT in memory: all twelve fields are overwritten, or none. */
    method Replace(f: Profile) returns (err: Option<DomainError>)
      modifies `business
      ensures err == ReplaceError(f)
      ensures business == if err.None? then f.(name := TrimSpace(f.name)) else old(business)
    {
      var n := NormalizeName(f.name);
      if n.Err? {
        return Some(n.error);
      }
      if !ValidGender(f.gender) {
        return Some(InvalidGender);
      }
      business := Profile(n.value, f.description, f.raceId, f.gender, f.birthDate, f.birthPlace,
                          f.heightCm, f.weightKg, f.bodyFat, f.sizeTop, f.sizeMiddle, f.sizeBottom);
      return None;
    }
  }

  // ---------------------------------------------------------------- the algebra of writes

  /** One PATCH that stands for `p` followed by `q`: where both speak, `q` wins. */
  function Over(q: UpdateFields, p: UpdateFields): UpdateFields {
    UpdateFields(
      Coalesce(q.name, p.name), Coalesce(q.description, p.description), Coalesce(q.raceId, p.raceId),
      Coalesce(q.gender, p.gender), Coalesce(q.birthDate, p.birthDate), Coalesce(q.birthPlace, p.birthPlace),
      Coalesce(q.heightCm, p.heightCm), Coalesce(q.weightKg, p.weightKg), Coalesce(q.bodyFat, p.bodyFat),
      Coalesce(q.sizeTop, p.sizeTop), Coalesce(q.sizeMiddle, p.sizeMiddle), Coalesce(q.sizeBottom, p.sizeBottom))
  }

  /** A sequence of PATCHes as one. */
  function MergeAll(ps: seq<UpdateFields>): UpdateFields {
    if ps == [] then EMPTY_PATCH else Over(ps[|ps| - 1], MergeAll(ps[..|ps| - 1]))
  }

  predicate AllAccepted(ops: seq<Op>) {
    forall i :: 0 <= i < |ops| ==> OpError(ops[i]).None?
  }

  /** The fields after a sequence of accepted writes, oldest first. */
  function Fold(b: Profile, ops: seq<Op>): Profile
    requires AllAccepted(ops)
  {
    if ops == [] then b else ApplyOp(Fold(b, ops[..|ops| - 1]), ops[|ops| - 1])
  }

  function Patches(ps: seq<UpdateFields>): seq<Op> {
    seq(|ps|, i requires 0 <= i < |ps| => Patch(ps[i]))
  }

  /** Any number of accepted PATCHes equals the one merged PATCH, which is accepted too. */
  lemma {:induction false} PatchesMerge(b: Profile, ps: seq<UpdateFields>)
    requires AllAccepted(Patches(ps))
    ensures PatchError(MergeAll(ps)).None? && Fold(b, Patches(ps)) == Patched(b, MergeAll(ps))
  {
    if ps != [] {
      var front := ps[..|ps| - 1];
      assert Patches(ps)[..|ps| - 1] == Patches(front);
      assert OpError(Patches(ps)[|ps| - 1]) == PatchError(ps[|ps| - 1]);
      PatchesMerge(b, front);
    }
  }

  /** Merging is associative, with the empty PATCH as its identity on both sides. */
  lemma {:induction false} MergingIsAMonoid(p: UpdateFields, q: UpdateFields, r: UpdateFields,
                                            ps: seq<UpdateFields>, qs: seq<UpdateFields>)
    ensures Over(r, Over(q, p)) == Over(Over(r, q), p)
    ensures Over(EMPTY_PATCH, p) == p == Over(p, EMPTY_PATCH)
    ensures MergeAll(ps + qs) == Over(MergeAll(qs), MergeAll(ps))
  {
    if qs == [] {
      assert ps + qs == ps;
    } else {
      assert (ps + qs)[..|ps + qs| - 1] == ps + qs[..|qs| - 1];
      MergingIsAMonoid(p, q, r, ps, qs[..|qs| - 1]);
    }
  }

  lemma {:induction false} FoldConcat(b: Profile, xs: seq<Op>, ys: seq<Op>)
    requires AllAccepted(xs) && AllAccepted(ys)
    ensures AllAccepted(xs + ys) && Fold(b, xs + ys) == Fold(Fold(b, xs), ys)
  {
    if ys == [] {
      assert xs + ys == xs;
    } else {
      var front := ys[..|ys| - 1];
      assert (xs + ys)[..|xs + ys| - 1] == xs + front;
      FoldConcat(b, xs, front);
    }
  }

  /** A PUT absorbs every write before it: later writes see only the PUT. */
  lemma PutAbsorbs(b: Profile, before: seq<Op>, f: Profile, after: seq<Op>)
    requires AllAccepted(before) && ReplaceError(f).None? && AllAccepted(after)
    ensures AllAccepted(before + [Put(f)] + after)
    ensures Fold(b, before + [Put(f)] + after) == Fold(Accepted(f), after)
  {
    FoldConcat(b, before, [Put(f)]);
    FoldConcat(b, before + [Put(f)], after);
    assert [Put(f)][..0] == [];
    assert Fold(Fold(b, before), [Put(f)]) == ApplyOp(Fold(b, before), Put(f));
  }
}
