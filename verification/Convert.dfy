/** Row columns and their conversion to and from domain fields. */
module Convert {
  import opened Basics
  import opened Text
  import opened CharacterDomain

  /** The business columns of `core_characters`; a birth date is a day number, body fat NUMERIC(4,1) in tenths. */
  datatype Columns = Columns(
    name: string, description: Option<string>, raceId: Uuid, gender: string,
    birthDate: Option<int>, birthPlace: Option<string>,
    heightCm: Option<Int16>, weightKg: Option<Int16>, bodyFat: Option<int>,
    sizeTop: Option<Int16>, sizeMiddle: Option<Int16>, sizeBottom: Option<Int16>)

  const SECONDS_PER_DAY := 86400

  function PgTextOrNull(s: string): Option<string> {
    if s == "" then None else Some(s)
  }

  function TextString(t: Option<string>): string {
    if t.Some? then t.value else ""
  }

  function PgDate(p: Option<WallTime>): Option<int> {
    if p.None? then None else Some(p.value / SECONDS_PER_DAY)
  }

  function DatePtr(d: Option<int>): Option<WallTime> {
    if d.None? then None else Some(d.value * SECONDS_PER_DAY)
  }

  /** Storing into NUMERIC(4,1) rounds to a tenth, half away from zero. */
  function PgNumeric(p: Option<real>): Option<int> {
    if p.None? then None
    else if p.value >= 0.0 then Some((p.value * 10.0 + 0.5).Floor)
    else Some(-((-p.value * 10.0 + 0.5).Floor))
  }

  function NumericPtr(n: Option<int>): Option<real> {
    if n.None? then None else Some(n.value as real / 10.0)
  }

  /** The columns `Save` and `Update` write for a record. */
  function ToColumns(b: Profile): Columns {
    Columns(b.name, PgTextOrNull(b.description), b.raceId, b.gender, PgDate(b.birthDate), PgTextOrNull(b.birthPlace),
            b.heightCm, b.weightKg, PgNumeric(b.bodyFat), b.sizeTop, b.sizeMiddle, b.sizeBottom)
  }

  /** The business part of `characterFromRow`. */
  function FromColumns(c: Columns): Profile {
    Profile(c.name, TextString(c.description), c.raceId, c.gender, DatePtr(c.birthDate), TextString(c.birthPlace),
            c.heightCm, c.weightKg, NumericPtr(c.bodyFat), c.sizeTop, c.sizeMiddle, c.sizeBottom)
  }

  /** "Not set" is NULL only: no optional text is the empty string. */
  predicate NormalText(c: Columns) {
    c.description != Some("") && c.birthPlace != Some("")
  }

  lemma TenthsRoundTrip(n: int)
    ensures PgNumeric(NumericPtr(Some(n))) == Some(n)
  {
    var x := n as real / 10.0;
    if n >= 0 {
      assert x * 10.0 + 0.5 == n as real + 0.5;
    } else {
      assert -x * 10.0 + 0.5 == (-n) as real + 0.5;
    }
  }

  /** A date is the day its wall clock falls on, and reads back as the start of that day. */
  lemma DatesAreDays(t: WallTime, d: int)
    ensures PgDate(Some(t)) == Some(d) <==> d * 86400 <= t < (d + 1) * 86400
    ensures DatePtr(Some(d)) == Some(d * 86400)
  {
  }

  /** Half a tenth away from zero rounds away from it. */
  predicate NearestTenth(x: real, n: int) {
    if x >= 0.0 then n as real - 0.5 <= x * 10.0 < n as real + 0.5
    else n as real - 0.5 < x * 10.0 <= n as real + 0.5
  }

  /** A body fat is stored as the nearest tenth, the one further from zero when two are as near. */
  lemma NumericIsNearest(x: real, n: int)
    ensures PgNumeric(Some(x)) == Some(n) <==> NearestTenth(x, n)
  {
    if x < 0.0 {
      assert -(x * 10.0) == -x * 10.0;
    }
  }

  /** The columns carry this input under this name: texts that are empty as NULL, the date's day, the nearest tenth. */
  predicate Carries(c: Columns, f: Profile, name: string) {
    && c.name == name && c.raceId == f.raceId && c.gender == f.gender
    && c.description == (if f.description == "" then None else Some(f.description))
    && c.birthPlace == (if f.birthPlace == "" then None else Some(f.birthPlace))
    && c.heightCm == f.heightCm && c.weightKg == f.weightKg
    && c.sizeTop == f.sizeTop && c.sizeMiddle == f.sizeMiddle && c.sizeBottom == f.sizeBottom
    && (c.birthDate.Some? <==> f.birthDate.Some?) && (c.bodyFat.Some? <==> f.bodyFat.Some?)
    && (f.birthDate.Some? ==> c.birthDate.value * 86400 <= f.birthDate.value < (c.birthDate.value + 1) * 86400)
    && (f.bodyFat.Some? ==> NearestTenth(f.bodyFat.value, c.bodyFat.value))
  }

  /** Reading a row and writing it back changes nothing exactly when its optional texts are normal. */
  lemma RowRoundTripIff(c: Columns)
    ensures ToColumns(FromColumns(c)) == c <==> NormalText(c)
  {
  }

  /** What the repository writes is normal, and reads back as what the write meant. */
  lemma WrittenColumnsAreNormal(b: Profile)
    ensures NormalText(ToColumns(b))
    ensures ToColumns(FromColumns(ToColumns(b))) == ToColumns(b)
    ensures FromColumns(ToColumns(b)) == b.(birthDate := DatePtr(PgDate(b.birthDate)),
                                            bodyFat := NumericPtr(PgNumeric(b.bodyFat)))
  {
  }

  /** One write at the level of the row: read, merge in memory, write every column. */
  function Rewritten(c: Columns, op: Op): Columns
    requires OpError(op).None?
  {
    ToColumns(ApplyOp(FromColumns(c), op))
  }

  /** What a PUT writes, whatever the row held, is the request column by column under its trimmed name. */
  lemma PutWritesTheRequest(c: Columns, f: Profile, left: string, core: string, right: string)
    requires ReplaceError(f).None? && Padded(f.name, left, core, right) && Tight(core)
    ensures Carries(Rewritten(c, Put(f)), f, core)
    ensures Rewritten(c, Put(f)) == ToColumns(Accepted(f))
  {
    NamesCountByTheirCore(f.name, left, core, right);
    if f.birthDate.Some? {
      DatesAreDays(f.birthDate.value, PgDate(f.birthDate).value);
    }
    if f.bodyFat.Some? {
      NumericIsNearest(f.bodyFat.value, PgNumeric(f.bodyFat).value);
    }
  }

  /** Whatever is written through the service carries a normalized name, a known gender and normal texts. */
  lemma RewrittenIsNormal(c: Columns, op: Op)
    requires OpError(op).None?
    requires op.Patch? ==> NormalName(c.name) && ValidGender(c.gender)
    ensures NormalName(Rewritten(c, op).name) && ValidGender(Rewritten(c, op).gender)
    ensures NormalText(Rewritten(c, op))
  {
    match op
    case Patch(p) => if p.name.Some? { NormalizedNamesAreFixed(p.name.value); }
    case Put(f) => NormalizedNamesAreFixed(f.name);
  }

  /** A PATCH rewrites all columns yet changes only the ones it names, exactly when no other text is ''. */
  lemma PatchKeepsUntouchedColumnsIff(c: Columns, p: UpdateFields)
    requires PatchError(p).None?
    ensures Rewritten(c, Patch(p)) == c.(
              name := if p.name.Some? then TrimSpace(p.name.value) else c.name,
              description := if p.description.Some? then PgTextOrNull(p.description.value) else c.description,
              raceId := if p.raceId.Some? then p.raceId.value else c.raceId,
              gender := if p.gender.Some? then p.gender.value else c.gender,
              birthDate := if p.birthDate.Some? then PgDate(p.birthDate) else c.birthDate,
              birthPlace := if p.birthPlace.Some? then PgTextOrNull(p.birthPlace.value) else c.birthPlace,
              heightCm := if p.heightCm.Some? then p.heightCm else c.heightCm,
              weightKg := if p.weightKg.Some? then p.weightKg else c.weightKg,
              bodyFat := if p.bodyFat.Some? then PgNumeric(p.bodyFat) else c.bodyFat,
              sizeTop := if p.sizeTop.Some? then p.sizeTop else c.sizeTop,
              sizeMiddle := if p.sizeMiddle.Some? then p.sizeMiddle else c.sizeMiddle,
              sizeBottom := if p.sizeBottom.Some? then p.sizeBottom else c.sizeBottom)
        <==> (p.description.None? ==> c.description != Some("")) && (p.birthPlace.None? ==> c.birthPlace != Some(""))
  {
  }
}
