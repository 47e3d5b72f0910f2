/** `POST /api/newsletter`: the e-mail gates, the upsert into
    `newsletter_subscribers` keyed by e-mail, and the response chosen from the
    store's answer. The table is a map from e-mail to row; the clock reading and the
    store's answer to the upsert are parameters. */
module NewsletterApi {
  import opened Common
  import opened Http
  import EmailFormat

  /** A row; `email` is the body's value as sent, which the pattern has passed (a
      string, or an array of strings whose join is an address). */
  datatype Subscriber = Subscriber(email: Value, name: Value, source: Value, subscribedAt: string)

  /** The row upserted for `body` at time `now` (`new Date().toISOString()`). */
  function RowFor(body: Record, now: string): (row: Subscriber)
    ensures row.email == Field(body, "email") && row.subscribedAt == now
    ensures row.name == (if Truthy(Field(body, "name")) then Field(body, "name") else Null)
    ensures row.source == (if Truthy(Field(body, "source")) then Field(body, "source") else Str("website"))
  {
    Subscriber(Field(body, "email"), OrElse(Field(body, "name"), Null), OrElse(Field(body, "source"), Str("website")), now)
  }

  datatype Subscribed = Subscribed(success: bool, message: string, subscriberId: Value)

  datatype Outcome = Outcome(response: Response<Subscribed>, table: map<Value, Subscriber>)

  /** `POST`; `body` is `None` when the request body is not valid JSON. */
  function Post(body: Option<Record>, table: map<Value, Subscriber>, now: string,
                store: Subscriber -> WriteAnswer<Value>): (o: Outcome)
    ensures o.response.status in {201, 400, 500}
    ensures o.response.status != 201 ==> o.table == table
    ensures o.response.status == 201 ==>
      && body.Some? && EmailFormat.TestValue(Field(body.value, "email"))
      && o.table == table[Field(body.value, "email") := RowFor(body.value, now)]
  {
    match body
    case None => Outcome(Error(500, InternalError), table)
    case Some(b) =>
      var email := Field(b, "email");
      if !Truthy(email) then Outcome(Error(400, "Email is required"), table)
      else if !EmailFormat.TestValue(email) then Outcome(Error(400, "Invalid email format"), table)
      else
        var row := RowFor(b, now);
        match store(row)
        case Stored(id) =>
          Outcome(Response(201, Payload(Subscribed(true, "Successfully subscribed to newsletter", id))), table[email := row])
        case WriteError(_) => Outcome(Error(500, "Failed to subscribe to newsletter"), table)
        case WriteThrew(_) => Outcome(Error(500, InternalError), table)
  }

  /** A missing or empty e-mail answers 400 and writes nothing. */
  lemma MissingEmailRejected(b: Record, table: map<Value, Subscriber>, now: string, store: Subscriber -> WriteAnswer<Value>)
    requires !Truthy(Field(b, "email"))
    ensures Post(Some(b), table, now, store) == Outcome(Error(400, "Email is required"), table)
  {
  }

  /** A present e-mail that fails the pattern answers 400 and writes nothing. */
  lemma MalformedEmailRejected(b: Record, table: map<Value, Subscriber>, now: string, store: Subscriber -> WriteAnswer<Value>)
    requires Truthy(Field(b, "email")) && !EmailFormat.TestValue(Field(b, "email"))
    ensures Post(Some(b), table, now, store) == Outcome(Error(400, "Invalid email format"), table)
  {
  }

  /** A subscription is accepted exactly when the e-mail passes the pattern and the
      store stores the row. The accepted value is a string or an array of strings,
      its text has the e-mail shape, and the table gains at most that key. */
  lemma AcceptedIff(b: Record, table: map<Value, Subscriber>, now: string, store: Subscriber -> WriteAnswer<Value>)
    ensures Post(Some(b), table, now, store).response.status == 201 <==>
      EmailFormat.TestValue(Field(b, "email")) && store(RowFor(b, now)).Stored?
    ensures Post(Some(b), table, now, store).response.status == 201 ==>
      && (Field(b, "email").Str? || Field(b, "email").Arr?)
      && EmailFormat.EmailShape(EmailFormat.TestedText(Field(b, "email")))
      && Post(Some(b), table, now, store).table.Keys == table.Keys + {Field(b, "email")}
      && Post(Some(b), table, now, store).response.body.data.subscriberId == store(RowFor(b, now)).id
  {
    if EmailFormat.TestValue(Field(b, "email")) {
      EmailFormat.PatternIffShape(EmailFormat.TestedText(Field(b, "email")));
    }
  }

  /** Subscribing the same address twice leaves one row for it, holding the second
      request's fields; the keys are those after the first subscription. */
  lemma SubscribeTwiceOneRow(b1: Record, b2: Record, table: map<Value, Subscriber>,
                             now1: string, now2: string, store: Subscriber -> WriteAnswer<Value>)
    requires Field(b1, "email") == Field(b2, "email")
    requires Post(Some(b1), table, now1, store).response.status == 201
    requires Post(Some(b2), Post(Some(b1), table, now1, store).table, now2, store).response.status == 201
    ensures var first := Post(Some(b1), table, now1, store).table;
      var second := Post(Some(b2), first, now2, store).table;
      && second.Keys == first.Keys
      && second == table[Field(b1, "email") := RowFor(b2, now2)]
  {
  }

  /** An e-mail sent as a one-element array holding an address passes both gates,
      and the row keeps the array as sent. */
  lemma ArrayAddressSubscribes(b: Record, table: map<Value, Subscriber>, now: string, store: Subscriber -> WriteAnswer<Value>)
    requires Field(b, "email") == Arr(["ana@colegio.do"])
    requires store(RowFor(b, now)).Stored?
    ensures Post(Some(b), table, now, store).response.status == 201
    ensures Post(Some(b), table, now, store).table[Arr(["ana@colegio.do"])].email == Arr(["ana@colegio.do"])
  {
    EmailFormat.AcceptsArrayOfOneAddress();
  }
}
