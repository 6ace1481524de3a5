/**
 * The custom `Deserialize` implementation for `Id`: a field visitor that
 * recognises only the key "exchange_id", and a map visitor that collects
 * that key's text value from a key/value stream and hands it to `from_str`.
 * The stream is a finite sequence of (key, value) pairs whose values are
 * text.
 */
module IdDeserialize {
  import opened Wrappers
  import opened Ids

  /** The one field the visitor recognises (`Field::ExchangeAccountId`). */
  datatype Field = ExchangeAccountId

  /** The serde errors the visitors raise (`de::Error::{unknown,duplicate,missing}_field`). */
  datatype DeError =
    | UnknownField(field: string, expected: seq<string>)
    | DuplicateField(field: string)
    | MissingField(field: string)

  /** `FIELDS`, the list of expected names carried by unknown-field errors. */
  const FIELDS: seq<string> := ["exchange_id", "account_number"]

  /** `FieldVisitor::visit_str`: only "exchange_id" is a known key. */
  function VisitStr(value: string): (r: Result<Field, DeError>)
    ensures r.Ok? <==> value == "exchange_id"
    ensures r.Err? ==> r.error == UnknownField(value, FIELDS)
  {
    match value
    case "exchange_id" => Ok(ExchangeAccountId)
    case _ => Err(UnknownField(value, FIELDS))
  }

  /**
   * What `visit_map` returns for a stream, stated by the first two entries:
   * the stream is accepted only when it is exactly one "exchange_id" entry;
   * a first bad key, a second key (repeated or unknown) or an empty stream
   * each give their own error, and a value `from_str` rejects is reported
   * as an unknown field carrying the whole value.
   */
  function VisitMapOutcome(entries: seq<(string, string)>): Result<Id, DeError>
  {
    if |entries| == 0 then Err(MissingField("exchange_id"))
    else if entries[0].0 != "exchange_id" then Err(UnknownField(entries[0].0, FIELDS))
    else if |entries| > 1 then
      if entries[1].0 == "exchange_id" then Err(DuplicateField("exchange_id"))
      else Err(UnknownField(entries[1].0, FIELDS))
    else
      match FromStr(entries[0].1)
      case Ok(id) => Ok(id)
      case Err(_) => Err(UnknownField(entries[0].1, FIELDS))
  }

  /**
   * `IdVisitor::visit_map`: pull keys from the stream until it ends,
   * remembering the "exchange_id" value and failing on the first unknown or
   * repeated key; then parse the remembered value. The stream position `next`
   * stands for the `MapAccess` cursor. The ghost `keysRead` is not in the
   * source: it records how many keys were taken from the stream, so that the
   * contract can say the visitor stops at the first unknown key and never
   * reads past the second key.
   */
  method VisitMap(entries: seq<(string, string)>) returns (r: Result<Id, DeError>, ghost keysRead: nat)
    ensures r == VisitMapOutcome(entries)
    ensures keysRead == if |entries| == 0 then 0
                        else if |entries| == 1 || entries[0].0 != "exchange_id" then 1
                        else 2
  {
    var wholeField: Option<string> := None;
    var next := 0;
    keysRead := 0;
    while next < |entries|
      invariant next <= 1 && next <= |entries|
      invariant keysRead == next
      invariant wholeField.None? <==> next == 0
      invariant wholeField.Some? ==> entries[0] == ("exchange_id", wholeField.value)
    {
      var (name, value) := entries[next];
      var key := VisitStr(name);
      next := next + 1;
      keysRead := keysRead + 1;
      if key.Err? {
        r := Err(key.error);
        return;
      }
      match key.value
      case ExchangeAccountId =>
        if wholeField.Some? {
          r := Err(DuplicateField("exchange_id"));
          return;
        }
        wholeField := Some(value);
    }
    if wholeField.None? {
      r := Err(MissingField("exchange_id"));
      return;
    }
    var whole := wholeField.value;
    match FromStr(whole)
    case Ok(id) => r := Ok(id);
    case Err(_) => r := Err(UnknownField(whole, FIELDS));
  }

  // ---------------------------------------------------------------------
  // Properties of the outcome

  /** Any key other than "exchange_id", "account_number" included, is unknown. */
  lemma AccountNumberIsUnknown()
    ensures VisitStr("account_number") == Err(UnknownField("account_number", FIELDS))
  {
  }

  /** Success exactly when the stream is one "exchange_id" entry whose value parses, and then it is that parse. */
  lemma AcceptedIff(entries: seq<(string, string)>)
    ensures VisitMapOutcome(entries).Ok? <==>
      |entries| == 1 && entries[0].0 == "exchange_id" && FromStr(entries[0].1).Ok?
    ensures VisitMapOutcome(entries).Ok? ==> VisitMapOutcome(entries).value == FromStr(entries[0].1).value
  {
  }

  /** The missing-field error happens exactly on the empty stream. */
  lemma MissingIff(entries: seq<(string, string)>)
    ensures VisitMapOutcome(entries) == Err(MissingField("exchange_id")) <==> entries == []
  {
  }

  /** A repeated "exchange_id" key right after the first is a duplicate-field error, whatever follows. */
  lemma DuplicateIff(entries: seq<(string, string)>)
    ensures VisitMapOutcome(entries) == Err(DuplicateField("exchange_id")) <==>
      |entries| >= 2 && entries[0].0 == "exchange_id" && entries[1].0 == "exchange_id"
  {
  }

  /** Nothing after the second entry affects the outcome: the stream is not read further. */
  lemma LaterEntriesIgnored(entries: seq<(string, string)>, rest: seq<(string, string)>)
    requires |entries| >= 2
    ensures VisitMapOutcome(entries + rest) == VisitMapOutcome(entries)
  {
    assert (entries + rest)[0] == entries[0] && (entries + rest)[1] == entries[1];
  }

  /** The first unknown key is reported by name, with the expected field list. */
  lemma UnknownKeyReported(entries: seq<(string, string)>, i: nat)
    requires i < |entries| && i <= 1
    requires entries[i].0 != "exchange_id"
    requires forall j :: 0 <= j < i ==> entries[j].0 == "exchange_id"
    ensures VisitMapOutcome(entries) == Err(UnknownField(entries[i].0, FIELDS))
  {
  }

  /** A single well-formed entry whose value does not parse is reported as an unknown field carrying the whole value. */
  lemma BadValueReported(value: string)
    requires FromStr(value).Err?
    ensures VisitMapOutcome([("exchange_id", value)]) == Err(UnknownField(value, FIELDS))
  {
  }

  /** The stream holding just "exchange_id" = letters ++ decimal(n) gives back `Id::new(letters, n)`. */
  lemma StreamRoundTrip(letters: string, n: u8)
    requires |letters| > 0 && AllLetters(letters)
    ensures VisitMapOutcome([("exchange_id", letters + Decimal(n as nat))]) == Ok(New(letters, n))
  {
    RoundTrip(letters, n);
  }
}
