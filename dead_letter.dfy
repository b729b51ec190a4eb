/**
 * The dead-letter processor: replaces the body of a failed exchange by a
 * JSON envelope holding the masked message of the root cause of the caught
 * exception (or a placeholder when nothing was caught) and the original
 * body. The masking formatter and the JSON serialiser are parameters.
 */
module DeadLetter {
  import opened Wrappers

  /** The error message used when the exchange carries no caught exception. */
  const PlaceholderMessage: string := "See log file"

  /**
   * A throwable and its cause chain. `remote` marks a
   * RemoteDhis2ClientException, `rendered` is what toString() returns and
   * `message` what getMessage() returns (possibly null).
   */
  datatype Throwable = Throwable(remote: bool, rendered: string, message: Option<string>, cause: Option<Throwable>)

  /** A message body: null, a JSON text set by this processor, or any other payload. */
  datatype Body<V> = Null | Text(text: string) | Payload(value: V)

  /** The two-entry map `{errorMessage, body}` that is serialised. */
  datatype Envelope<V> = Envelope(errorMessage: string, body: Body<V>)

  /** The call LOGGER.error(message, exception). */
  datatype LogRecord = LogRecord(message: Option<string>, error: Throwable)

  /**
   * How process() ends: normally, with the NullPointerException Map.of throws
   * on a null value, or with an exception thrown by the masking formatter or
   * the JSON serialiser.
   */
  datatype Outcome = Completed | NullPointerException | Threw(error: Throwable)

  /** `r` is reached from `e` by following getCause() zero or more times. */
  predicate InChain(r: Throwable, e: Throwable)
    decreases e
  {
    r == e || (e.cause.Some? && InChain(r, e.cause.value))
  }

  /** The cause of a throwable on the chain of `e` is on it too. */
  lemma {:induction false} InChainCause(c: Throwable, e: Throwable)
    requires InChain(c, e) && c.cause.Some?
    ensures InChain(c.cause.value, e)
    decreases e
  {
    if c != e {
      InChainCause(c, e.cause.value);
    }
  }

  /** The end of the cause chain of `e`. */
  function RootCause(e: Throwable): (root: Throwable)
    ensures root.cause.None? && InChain(root, e)
    decreases e
  {
    if e.cause.None? then e else RootCause(e.cause.value)
  }

  /** A cause chain has exactly one end. */
  lemma {:induction false} RootCauseUnique(e: Throwable, r: Throwable)
    requires InChain(r, e) && r.cause.None?
    ensures r == RootCause(e)
    decreases e
  {
    if r != e {
      RootCauseUnique(e.cause.value, r);
    }
  }

  /** Every throwable on the chain of `e` has the same root as `e`. */
  lemma {:induction false} RootCauseOfChain(e: Throwable, c: Throwable)
    requires InChain(c, e)
    ensures RootCause(c) == RootCause(e)
    decreases e
  {
    if c != e {
      RootCauseOfChain(e.cause.value, c);
    }
  }

  /** The text process() takes from the root cause, before masking: toString() for a remote client exception, else getMessage(). */
  function Describe(root: Throwable): (r: Option<string>)
    ensures root.remote ==> r.Some?
    ensures r.None? <==> !root.remote && root.message.None?
  {
    if root.remote then Some(root.rendered) else root.message
  }

  /** The loop of process(): follow getCause() until there is none. */
  method WalkToRoot(caught: Throwable) returns (exception: Throwable)
    ensures exception.cause.None? && InChain(exception, caught)
    ensures exception == RootCause(caught)
  {
    exception := caught;
    while exception.cause.Some?
      invariant InChain(exception, caught)
      invariant RootCause(exception) == RootCause(caught)
      decreases exception
    {
      InChainCause(exception, caught);
      exception := exception.cause.value;
    }
  }

  /** The exchange as process() sees it: the caught-exception property and the message body. */
  class Exchange<V> {
    var caught: Option<Throwable>
    var body: Body<V>

    constructor (caught: Option<Throwable>, body: Body<V>)
      ensures this.caught == caught && this.body == body
    {
      this.caught := caught;
      this.body := body;
    }
  }

  /**
   * process(): the envelope's message is the masked description of the root
   * cause, logged before the envelope is built, or the placeholder when
   * nothing was caught; the envelope's body is the original body. A
   * formatter that throws ends process() before the log. A null message or a
   * null body makes Map.of throw, and a serialiser that throws ends it too;
   * the body is then left as it was.
   */
  method Process<V>(exchange: Exchange<V>, mask: Option<string> -> Result<Option<string>, Throwable>,
                    serialize: Envelope<V> -> Result<string, Throwable>)
    returns (outcome: Outcome, log: Option<LogRecord>)
    modifies exchange`body
    ensures exchange.caught.None? ==> log.None?
    ensures exchange.caught.Some? ==>
              var root := RootCause(exchange.caught.value);
              var formatted := mask(Describe(root));
              (formatted.Success? ==> log == Some(LogRecord(formatted.value, root))) &&
              (formatted.Failure? ==> log.None? && outcome == Threw(formatted.error))
    ensures exchange.caught.None? || log.Some? ==>
              var message := if log.None? then Some(PlaceholderMessage) else log.value.message;
              if message.None? || old(exchange.body) == Null then outcome == NullPointerException
              else
                var json := serialize(Envelope(message.value, old(exchange.body)));
                (json.Success? ==> outcome == Completed && exchange.body == Text(json.value)) &&
                (json.Failure? ==> outcome == Threw(json.error))
    ensures outcome != Completed ==> exchange.body == old(exchange.body)
  {
    var exception := exchange.caught;
    var message: Option<string>;
    if exception.Some? {
      var root := WalkToRoot(exception.value);
      var formatted: Result<Option<string>, Throwable>;
      if root.remote {
        formatted := mask(Some(root.rendered));
      } else {
        formatted := mask(root.message);
      }
      if formatted.Failure? {
        return Threw(formatted.error), None;
      }
      message := formatted.value;
      log := Some(LogRecord(message, root));
    } else {
      message := Some(PlaceholderMessage);
      log := None;
    }
    if message.None? || exchange.body == Null {
      return NullPointerException, log;
    }
    var newBody := Envelope(message.value, exchange.body);
    var json := serialize(newBody);
    if json.Failure? {
      return Threw(json.error), log;
    }
    exchange.body := Text(json.value);
    outcome := Completed;
  }
}
