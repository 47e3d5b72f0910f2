/** The database seeder: 25 sample schools, each inserted with a slug and its
    province id, plus an open-house event for the ones that list a date. The
    province lookup and the two inserts are oracles passed in by the caller. */
module Seed {
  import opened Common
  import ImportMinerd

  // ================================================================ samples

  /** A sample school, with the fields the loop reads. */
  datatype Sample = Sample(
    name: string, schoolType: string, province: string, address: string,
    isTopPublic: Option<bool>, openHouseDate: Option<string>, openHouseTime: Option<string>)

  const SampleSchools: seq<Sample> := [
    Sample("Colegio de San Ignacio", "private", "Santo Domingo",
           "Calle Hostos 123, Santo Domingo",
           None, Some("2026-03-15"), Some("10:00")),
    Sample("Liceo Javier", "private", "Santo Domingo",
           "Avenida Independencia 456, Santo Domingo",
           None, Some("2026-03-22"), Some("14:00")),
    Sample("Colegio Santa María", "private", "Santo Domingo",
           "Calle Duarte 789, Santo Domingo",
           None, None, None),
    Sample("Instituto Técnico Capotillo", "private", "Santo Domingo",
           "Avenida San Martín 234, Santo Domingo",
           None, None, None),
    Sample("Colegio Dominicano", "private", "Santo Domingo",
           "Calle Isabel la Católica 567, Santo Domingo",
           None, Some("2026-04-05"), Some("09:00")),
    Sample("Academia Lincoln", "private", "Santo Domingo",
           "Avenida Bolívar 890, Santo Domingo",
           None, None, None),
    Sample("Escuela Montessori Santo Domingo", "private", "Santo Domingo",
           "Calle Colón 345, Santo Domingo",
           None, None, None),
    Sample("Colegio Francés Domingo Savio", "private", "Santo Domingo",
           "Avenida Francia 123, Santo Domingo",
           None, None, None),
    Sample("Liceo Espíritu Santo", "private", "Santiago",
           "Calle Mella 456, Santiago",
           None, Some("2026-03-20"), Some("15:00")),
    Sample("Instituto Técnico de Santiago", "private", "Santiago",
           "Autopista Santiago 789, Santiago",
           None, None, None),
    Sample("Colegio Nuestra Señora del Rosario", "private", "Santiago",
           "Calle Emilio Prud'Homme 234, Santiago",
           None, None, None),
    Sample("Academia Internacional Santiago", "private", "Santiago",
           "Avenida Kennedy 567, Santiago",
           None, Some("2026-04-12"), Some("10:00")),
    Sample("Colegio San Luis Gonzaga", "private", "Santiago",
           "Calle Restauración 890, Santiago",
           None, None, None),
    Sample("Escuela de Artes y Oficios Santiago", "private", "Santiago",
           "Avenida Arturo Merced 123, Santiago",
           None, None, None),
    Sample("Colegio Presidencial", "private", "Santiago",
           "Altura Naco, Santiago",
           None, None, None),
    Sample("Escuela Politécnica Loyola", "public", "Santo Domingo",
           "Avenida 30 de Marzo, Santo Domingo",
           Some(true), None, None),
    Sample("Liceo Educación y Desarrollo", "public", "Santiago",
           "Carretera Circunvalación, Santiago",
           Some(true), None, None),
    Sample("Liceo Técnico Industrial Enriquillo", "public", "La Romana",
           "Avenida Santa Rosa, La Romana",
           Some(true), None, None),
    Sample("Escuela Secundaria Juan Pablo Duarte", "public", "La Altagracia",
           "Carretera Punta Cana, La Altagracia",
           Some(true), None, None),
    Sample("Liceo Nocturno Profesional", "public", "Santo Domingo",
           "Avenida Luperón 345, Santo Domingo",
           Some(true), None, None),
    Sample("Escuela Secundaria Héroes de Bani", "public", "Peravia",
           "Avenida Independencia, Bani",
           Some(true), None, None),
    Sample("Liceo Agropecuario San Cristóbal", "public", "San Cristóbal",
           "Camino a San Cristóbal, San Cristóbal",
           Some(true), None, None),
    Sample("Escuela Técnica Azua", "public", "Azua",
           "Avenida Principal, Azua",
           Some(true), None, None),
    Sample("Liceo Politécnico Espaillat", "public", "Espaillat",
           "Avenida Duarte, Moca",
           Some(true), None, None),
    Sample("Escuela Secundaria María Trinidad Sánchez", "public", "María Trinidad Sánchez",
           "Avenida General Gregorio Luperón, Sosúa",
           Some(true), None, None)
  ]

  lemma SampleSchoolsCount()
    ensures |SampleSchools| == 25
    ensures forall i :: 0 <= i < 15 ==> SampleSchools[i].schoolType == "private" && SampleSchools[i].isTopPublic.None?
    ensures forall i :: 15 <= i < 25 ==> SampleSchools[i].schoolType == "public" && SampleSchools[i].isTopPublic == Some(true)
  {
  }

  /** A text field is truthy when present and non-empty. */
  predicate Filled(o: Option<string>) {
    o.Some? && o.value != ""
  }

  // ================================================================ writes

  /** The school row the seeder inserts. */
  datatype SchoolInsert = SchoolInsert(
    name: string, slug: string, schoolType: string, address: string, provinceId: int,
    isTopPublic: bool, verificationStatus: string)

  /** The row the store returns for an inserted school. */
  datatype InsertedRow = InsertedRow(id: string, address: string)

  /** What the school insert oracle answers: the returned row (possibly none), or
      an error; an error result and a thrown exception are booked alike. */
  datatype InsertAnswer = InsertedSchool(row: Option<InsertedRow>) | InsertFailed(message: string)

  datatype EventInsert = EventInsert(
    schoolId: string, eventDate: string, eventTime: string, location: string,
    description: string, maxAttendees: nat, currentAttendees: nat)

  /** What the event insert oracle answers: created, an error result (only
      warned about), or a thrown exception (caught by the per-school handler). */
  datatype EventAnswer = EventCreated | EventFailed(message: string) | EventThrew(message: string)

  const DefaultEventTime: string := "10:00"
  const MaxAttendees: nat := 200

  /** The school row the seeder inserts, given the slug it computed. */
  function InsertFor(s: Sample, slug: string, provinceId: int): SchoolInsert {
    SchoolInsert(s.name, slug, s.schoolType, s.address, provinceId,
                 s.isTopPublic == Some(true), "unverified")
  }

  /** Inserted schools are flagged top only when the sample says so, start
      unverified, and carry the slug the loop computed. */
  lemma InsertDefaults(s: Sample, slug: string, provinceId: int)
    ensures InsertFor(s, slug, provinceId).isTopPublic <==> s.isTopPublic == Some(true)
    ensures s.isTopPublic.None? ==> !InsertFor(s, slug, provinceId).isTopPublic
    ensures InsertFor(s, slug, provinceId).verificationStatus == "unverified"
    ensures InsertFor(s, slug, provinceId).slug == slug && InsertFor(s, slug, provinceId).provinceId == provinceId
  {
  }

  /** The slug has the importer's shape and is a fixpoint of the slug function. */
  lemma SeedSlug(name: string)
    ensures ImportMinerd.IsSlugShaped(ImportMinerd.GenerateSlug(name))
    ensures ImportMinerd.GenerateSlug(ImportMinerd.GenerateSlug(name)) == ImportMinerd.GenerateSlug(name)
  {
    ImportMinerd.GenerateSlugIdempotent(name);
  }

  function EventFor(s: Sample, row: InsertedRow): EventInsert
    requires Filled(s.openHouseDate)
  {
    var time := if Filled(s.openHouseTime) then s.openHouseTime.value else DefaultEventTime;
    EventInsert(row.id, s.openHouseDate.value, time, row.address,
                "Open house event for " + s.name, MaxAttendees, 0)
  }

  // ================================================================ the loop

  /** The loop's counters, its error list, and the rows it wrote. */
  datatype SeedLog = SeedLog(
    seededSchools: nat, seededOpenHouses: nat, errors: seq<string>,
    schools: seq<SchoolInsert>, events: seq<EventInsert>)

  const EmptyLog: SeedLog := SeedLog(0, 0, [], [], [])

  /** The province id the loop goes on with: a zero id is falsy, like a missing one. */
  function ProvinceIdOf(lookup: string -> ImportMinerd.ProvinceLookup, s: Sample): Option<int> {
    match lookup(s.province)
    case Found(id) => if id != 0 then Some(id) else None
    case _ => None
  }

  /** What became of a sample's open-house event. */
  datatype EventFate = NoEvent | Created(event: EventInsert) | Warned(message: string) | Threw(message: string)

  /** What became of a sample. */
  datatype Fate =
    | LookupFailed(message: string)
    | NoProvince
    | InsertRejected(message: string)
    | Inserted(row: SchoolInsert, event: EventFate)

  /** The decisions of one iteration: the lookup, the insert, and the optional event. */
  function FateOf(s: Sample, slug: string, lookup: string -> ImportMinerd.ProvinceLookup,
                  insert: SchoolInsert -> InsertAnswer, createEvent: EventInsert -> EventAnswer): Fate
  {
    match lookup(s.province)
    case LookupThrew(msg) => LookupFailed(msg)
    case NotFound => NoProvince
    case Found(id) =>
      if id == 0 then NoProvince
      else
        var row := InsertFor(s, slug, id);
        match insert(row)
        case InsertFailed(msg) => InsertRejected(msg)
        case InsertedSchool(school) =>
          if Filled(s.openHouseDate) && school.Some? then
            var event := EventFor(s, school.value);
            match createEvent(event)
            case EventCreated => Inserted(row, Created(event))
            case EventFailed(msg) => Inserted(row, Warned(msg))
            case EventThrew(msg) => Inserted(row, Threw(msg))
          else Inserted(row, NoEvent)
  }

  /** A school is inserted exactly when its province was found and the insert
      succeeded; the row is the one built from the sample, and an event is tried
      only when a date is set and the insert returned the row. */
  lemma FateOfInsert(s: Sample, slug: string, lookup: string -> ImportMinerd.ProvinceLookup,
                     insert: SchoolInsert -> InsertAnswer, createEvent: EventInsert -> EventAnswer)
    ensures var f := FateOf(s, slug, lookup, insert, createEvent);
      && (f.NoProvince? <==> lookup(s.province).NotFound? || lookup(s.province) == ImportMinerd.Found(0))
      && (f.LookupFailed? <==> lookup(s.province).LookupThrew?)
      && (f.Inserted? <==>
            ProvinceIdOf(lookup, s).Some? && insert(InsertFor(s, slug, ProvinceIdOf(lookup, s).value)).InsertedSchool?)
      && (f.Inserted? ==> f.row == InsertFor(s, slug, ProvinceIdOf(lookup, s).value))
      && (f.Inserted? ==> (f.event.NoEvent? <==> !Filled(s.openHouseDate) || insert(f.row).row.None?))
  {
  }

  /** A created event is the one built from the sample and the returned row. */
  lemma FateOfEvent(s: Sample, slug: string, lookup: string -> ImportMinerd.ProvinceLookup,
                    insert: SchoolInsert -> InsertAnswer, createEvent: EventInsert -> EventAnswer)
    requires FateOf(s, slug, lookup, insert, createEvent).Inserted?
    requires FateOf(s, slug, lookup, insert, createEvent).event.Created?
    ensures var f := FateOf(s, slug, lookup, insert, createEvent);
      && Filled(s.openHouseDate) && insert(f.row).InsertedSchool? && insert(f.row).row.Some?
      && f.event.event == EventFor(s, insert(f.row).row.value)
      && createEvent(f.event.event) == EventCreated
  {
  }

  /** How one sample is booked. */
  function Book(log: SeedLog, s: Sample, f: Fate): SeedLog {
    match f
    case LookupFailed(msg) => log.(errors := log.errors + [s.name + ": " + msg])
    case NoProvince => log.(errors := log.errors + ["Skipped " + s.name + ": Province not found"])
    case InsertRejected(msg) => log.(errors := log.errors + [s.name + ": " + msg])
    case Inserted(row, event) =>
      var seeded := log.(seededSchools := log.seededSchools + 1, schools := log.schools + [row]);
      match event
      case NoEvent => seeded
      case Created(e) => seeded.(seededOpenHouses := seeded.seededOpenHouses + 1, events := seeded.events + [e])
      case Warned(_) => seeded
      case Threw(msg) => seeded.(errors := seeded.errors + [s.name + ": " + msg])
  }

  /** One iteration of the loop of `seedDatabase`. */
  function SeedOne(log: SeedLog, s: Sample, lookup: string -> ImportMinerd.ProvinceLookup,
                   insert: SchoolInsert -> InsertAnswer, createEvent: EventInsert -> EventAnswer): SeedLog
  {
    Book(log, s, FateOf(s, ImportMinerd.GenerateSlug(s.name), lookup, insert, createEvent))
  }

  /** A school whose province is missing is skipped with exactly one error and no insert. */
  lemma NoProvinceSkipped(log: SeedLog, s: Sample, lookup: string -> ImportMinerd.ProvinceLookup,
                          insert: SchoolInsert -> InsertAnswer, createEvent: EventInsert -> EventAnswer)
    requires lookup(s.province).NotFound? || lookup(s.province) == ImportMinerd.Found(0)
    ensures SeedOne(log, s, lookup, insert, createEvent)
      == log.(errors := log.errors + ["Skipped " + s.name + ": Province not found"])
  {
  }

  /** An event insert that fails with an error result only warns: the school is
      counted and no error is recorded. */
  lemma EventFailureOnlyWarns(log: SeedLog, s: Sample, row: SchoolInsert, msg: string)
    ensures Book(log, s, Inserted(row, Warned(msg))) == Book(log, s, Inserted(row, NoEvent))
    ensures Book(log, s, Inserted(row, Warned(msg))).errors == log.errors
    ensures Book(log, s, Inserted(row, Warned(msg))).seededSchools == log.seededSchools + 1
  {
  }

  /** Booking moves the counters and lists by exactly what the fate says: a school
      counts only once inserted, an event only once created, and a thrown event
      insert adds an error on top of the counted school. */
  lemma BookStep(log: SeedLog, s: Sample, f: Fate)
    ensures var r := Book(log, s, f);
      && r.seededSchools == log.seededSchools + (if f.Inserted? then 1 else 0)
      && r.seededOpenHouses == log.seededOpenHouses + (if f.Inserted? && f.event.Created? then 1 else 0)
      && |r.errors| == |log.errors| + (if f.Inserted? then 0 else 1) + (if f.Inserted? && f.event.Threw? then 1 else 0)
      && r.errors[..|log.errors|] == log.errors
      && r.schools == log.schools + (if f.Inserted? then [f.row] else [])
      && r.events == log.events + (if f.Inserted? && f.event.Created? then [f.event.event] else [])
  {
    var r := Book(log, s, f);
    assert r.errors[..|log.errors|] == log.errors;
  }

  /** Totals over the first `|samples|` iterations. */
  function SeedRun(samples: seq<Sample>, lookup: string -> ImportMinerd.ProvinceLookup,
                   insert: SchoolInsert -> InsertAnswer, createEvent: EventInsert -> EventAnswer): SeedLog
  {
    if samples == [] then EmptyLog
    else SeedOne(SeedRun(samples[..|samples| - 1], lookup, insert, createEvent), samples[|samples| - 1],
                 lookup, insert, createEvent)
  }

  /** The samples that end up as inserted schools, with a created event, and with
      an event insert that threw. */
  function Seeds(lookup: string -> ImportMinerd.ProvinceLookup, insert: SchoolInsert -> InsertAnswer,
                 createEvent: EventInsert -> EventAnswer): Sample -> bool {
    (s: Sample) => FateOf(s, ImportMinerd.GenerateSlug(s.name), lookup, insert, createEvent).Inserted?
  }

  function OpensHouse(lookup: string -> ImportMinerd.ProvinceLookup, insert: SchoolInsert -> InsertAnswer,
                      createEvent: EventInsert -> EventAnswer): Sample -> bool {
    (s: Sample) => FateOf(s, ImportMinerd.GenerateSlug(s.name), lookup, insert, createEvent).Inserted? && FateOf(s, ImportMinerd.GenerateSlug(s.name), lookup, insert, createEvent).event.Created?
  }

  function EventThrows(lookup: string -> ImportMinerd.ProvinceLookup, insert: SchoolInsert -> InsertAnswer,
                       createEvent: EventInsert -> EventAnswer): Sample -> bool {
    (s: Sample) => FateOf(s, ImportMinerd.GenerateSlug(s.name), lookup, insert, createEvent).Inserted? && FateOf(s, ImportMinerd.GenerateSlug(s.name), lookup, insert, createEvent).event.Threw?
  }

  /** How many elements of `s` satisfy `p`. */
  function CountIf<T>(s: seq<T>, p: T -> bool): (n: nat)
    ensures n <= |s|
  {
    if s == [] then 0 else CountIf(s[..|s| - 1], p) + (if p(s[|s| - 1]) then 1 else 0)
  }

  lemma {:induction false} CountIfImplies<T>(s: seq<T>, p: T -> bool, q: T -> bool)
    requires forall x :: x in s && p(x) ==> q(x)
    ensures CountIf(s, p) <= CountIf(s, q)
  {
    if s != [] {
      assert forall x :: x in s[..|s| - 1] ==> x in s;
      CountIfImplies(s[..|s| - 1], p, q);
    }
  }

  /** The run's totals: schools seeded = samples inserted; events = events created;
      errors = samples not inserted plus events whose insert threw. */
  lemma {:induction false} SeedRunCounts(samples: seq<Sample>, lookup: string -> ImportMinerd.ProvinceLookup,
                                         insert: SchoolInsert -> InsertAnswer, createEvent: EventInsert -> EventAnswer)
    ensures var r := SeedRun(samples, lookup, insert, createEvent);
      && r.seededSchools == CountIf(samples, Seeds(lookup, insert, createEvent)) == |r.schools|
      && r.seededOpenHouses == CountIf(samples, OpensHouse(lookup, insert, createEvent)) == |r.events|
      && |r.errors| == |samples| - r.seededSchools + CountIf(samples, EventThrows(lookup, insert, createEvent))
  {
    if samples != [] {
      var init := samples[..|samples| - 1];
      var s := samples[|samples| - 1];
      SeedRunCounts(init, lookup, insert, createEvent);
      BookStep(SeedRun(init, lookup, insert, createEvent), s, FateOf(s, ImportMinerd.GenerateSlug(s.name), lookup, insert, createEvent));
    }
  }

  /** The written schools are unverified and carry well-formed slugs. */
  predicate SchoolsWellFormed(schools: seq<SchoolInsert>) {
    forall k :: 0 <= k < |schools| ==>
      schools[k].verificationStatus == "unverified" && ImportMinerd.IsSlugShaped(schools[k].slug)
  }

  /** The written events have room for 200 and nobody booked. */
  predicate EventsWellFormed(events: seq<EventInsert>) {
    forall k :: 0 <= k < |events| ==> events[k].maxAttendees == MaxAttendees && events[k].currentAttendees == 0
  }

  lemma BookKeepsRows(log: SeedLog, s: Sample, slug: string, lookup: string -> ImportMinerd.ProvinceLookup,
                      insert: SchoolInsert -> InsertAnswer, createEvent: EventInsert -> EventAnswer)
    requires ImportMinerd.IsSlugShaped(slug)
    requires SchoolsWellFormed(log.schools) && EventsWellFormed(log.events)
    ensures var r := Book(log, s, FateOf(s, slug, lookup, insert, createEvent));
      SchoolsWellFormed(r.schools) && EventsWellFormed(r.events)
  {
    var f := FateOf(s, slug, lookup, insert, createEvent);
    var r := Book(log, s, f);
    BookStep(log, s, f);
    if f.Inserted? {
      FateOfInsert(s, slug, lookup, insert, createEvent);
      InsertDefaults(s, slug, ProvinceIdOf(lookup, s).value);
      assert r.schools == log.schools + [f.row];
      if f.event.Created? {
        FateOfEvent(s, slug, lookup, insert, createEvent);
        assert r.events == log.events + [f.event.event];
      } else {
        assert r.events == log.events;
      }
    } else {
      assert r.schools == log.schools && r.events == log.events;
    }
  }

  /** Every school written is unverified and carries a well-formed slug; every
      event written has room for 200 and nobody booked. */
  lemma {:induction false} SeedRunRows(samples: seq<Sample>, lookup: string -> ImportMinerd.ProvinceLookup,
                                       insert: SchoolInsert -> InsertAnswer, createEvent: EventInsert -> EventAnswer)
    ensures SchoolsWellFormed(SeedRun(samples, lookup, insert, createEvent).schools)
    ensures EventsWellFormed(SeedRun(samples, lookup, insert, createEvent).events)
  {
    if samples != [] {
      var init := samples[..|samples| - 1];
      var s := samples[|samples| - 1];
      SeedRunRows(init, lookup, insert, createEvent);
      SeedSlug(s.name);
      BookKeepsRows(SeedRun(init, lookup, insert, createEvent), s, ImportMinerd.GenerateSlug(s.name),
                    lookup, insert, createEvent);
    }
  }

  /** At most one event per seeded school, and at most one school per sample. */
  lemma SeedRunBounds(samples: seq<Sample>, lookup: string -> ImportMinerd.ProvinceLookup,
                      insert: SchoolInsert -> InsertAnswer, createEvent: EventInsert -> EventAnswer)
    ensures var r := SeedRun(samples, lookup, insert, createEvent);
      r.seededOpenHouses <= r.seededSchools <= |samples| && |r.errors| >= |samples| - r.seededSchools
  {
    SeedRunCounts(samples, lookup, insert, createEvent);
    CountIfImplies(samples, OpensHouse(lookup, insert, createEvent), Seeds(lookup, insert, createEvent));
  }

  /** The body of the loop: lookup, slug, insert, and the optional event. */
  method SeedSchool(log: SeedLog, schoolData: Sample, lookup: string -> ImportMinerd.ProvinceLookup,
                    insert: SchoolInsert -> InsertAnswer, createEvent: EventInsert -> EventAnswer)
    returns (r: SeedLog)
    ensures r == SeedOne(log, schoolData, lookup, insert, createEvent)
  {
    var slug := ImportMinerd.GenerateSlug(schoolData.name);
    r := SeedWithSlug(log, schoolData, slug, lookup, insert, createEvent);
  }

  method SeedWithSlug(log: SeedLog, schoolData: Sample, slug: string, lookup: string -> ImportMinerd.ProvinceLookup,
                      insert: SchoolInsert -> InsertAnswer, createEvent: EventInsert -> EventAnswer)
    returns (r: SeedLog)
    ensures r == Book(log, schoolData, FateOf(schoolData, slug, lookup, insert, createEvent))
  {
    r := log;
    var provinceId := lookup(schoolData.province);
    if provinceId.LookupThrew? {
      r := r.(errors := r.errors + [schoolData.name + ": " + provinceId.message]);
      return;
    }
    if provinceId.NotFound? || provinceId.id == 0 {
      r := r.(errors := r.errors + ["Skipped " + schoolData.name + ": Province not found"]);
      return;
    }
    var row := SchoolInsert(schoolData.name, slug, schoolData.schoolType, schoolData.address, provinceId.id,
                            schoolData.isTopPublic == Some(true), "unverified");
    var answer := insert(row);
    if answer.InsertFailed? {
      r := r.(errors := r.errors + [schoolData.name + ": " + answer.message]);
      return;
    }
    r := r.(seededSchools := r.seededSchools + 1, schools := r.schools + [row]);
    var school := answer.row;
    if Filled(schoolData.openHouseDate) && school.Some? {
      var event := EventFor(schoolData, school.value);
      var eventAnswer := createEvent(event);
      match eventAnswer {
        case EventCreated =>
          r := r.(seededOpenHouses := r.seededOpenHouses + 1, events := r.events + [event]);
        case EventFailed(_) =>
          // only warned about
        case EventThrew(msg) =>
          r := r.(errors := r.errors + [schoolData.name + ": " + msg]);
      }
    }
  }

  /** The loop of `seedDatabase` over a list of samples. */
  method SeedAll(samples: seq<Sample>, lookup: string -> ImportMinerd.ProvinceLookup,
                 insert: SchoolInsert -> InsertAnswer, createEvent: EventInsert -> EventAnswer)
    returns (log: SeedLog)
    ensures log == SeedRun(samples, lookup, insert, createEvent)
    ensures log.seededOpenHouses <= log.seededSchools <= |samples|
  {
    log := EmptyLog;
    var n := 0;
    while n < |samples|
      invariant 0 <= n <= |samples|
      invariant log == SeedRun(samples[..n], lookup, insert, createEvent)
    {
      assert samples[..n + 1][..n] == samples[..n];
      log := SeedSchool(log, samples[n], lookup, insert, createEvent);
      n := n + 1;
    }
    assert samples[..|samples|] == samples;
    SeedRunBounds(samples, lookup, insert, createEvent);
  }

  /** `seedDatabase`: every per-school failure is caught, so the run exits with 0. */
  method SeedDatabase(lookup: string -> ImportMinerd.ProvinceLookup,
                      insert: SchoolInsert -> InsertAnswer, createEvent: EventInsert -> EventAnswer)
    returns (log: SeedLog, exitCode: int)
    ensures log == SeedRun(SampleSchools, lookup, insert, createEvent)
    ensures log.seededOpenHouses <= log.seededSchools <= |SampleSchools|
    ensures exitCode == 0
  {
    log := SeedAll(SampleSchools, lookup, insert, createEvent);
    exitCode := 0;
  }
}
