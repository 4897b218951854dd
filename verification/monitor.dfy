/** One poll of the Target product page (`checkTargetOnce`) and the sequence
    of polls the interval timer drives. The page fetch is an input outcome;
    the extraction of button text from markup is a parameter. The two
    deployments differ in their product and in one guard on the response. */
module Monitor {
  import opened Patterns
  import opened Classifier
  import opened Notifier

  /** The response body as the HTTP client delivers it: markup text, or a
      value of another type (a parsed JSON object, a buffer) whose string
      conversion is `coerced`. */
  datatype Body = Markup(html: string) | NonString(coerced: string)

  /** The result of the page fetch: the client threw (network error,
      timeout), or a response arrived with an HTTP status code. */
  datatype FetchOutcome = Failed(reason: string) | Response(httpStatus: int, data: Body)

  /** A deployment of the monitor. `coerceNonString` replaces a non-string
      body by the empty markup before classification. */
  datatype Config = Config(product: Product, coerceNonString: bool)

  /** The deployment that guards the body type. */
  const GuardedTarget: Config := Config(
    Product("target", "Pokémon Prismatic Evolutions Premium Figure Collection",
            "https://www.target.com/p/pok-233-mon-trading-card-game-scarlet-38-violet-prismatic-evolutions-premium-figure-collection/-/A-94864079"),
    true)

  /** The deployment that passes the body on unchanged. */
  const UnguardedTarget: Config := Config(
    Product("target", "2025 Panini NFL Score Blaster Box",
            "https://www.target.com/p/2025-panini-nfl-score-football-trading-card-blaster-box/-/A-94681674"),
    false)

  /** The client's `validateStatus`: only 2xx and 3xx responses succeed. */
  predicate Accepted(httpStatus: int) {
    200 <= httpStatus < 400
  }

  /** The fetch produced a body the monitor goes on to classify. */
  predicate Succeeds(o: FetchOutcome) {
    o.Response? && Accepted(o.httpStatus)
  }

  /** The markup the patterns are tested against. */
  function MarkupOf(c: Config, data: Body): string {
    match data
    case Markup(html) => html
    case NonString(coerced) => if c.coerceNonString then "" else coerced
  }

  /** One poll: fetch, classify, and notify on change. `buttons` gives the
      concatenated text of the `button` and `a.button` elements of markup. */
  function Check(c: Config, n: State, o: FetchOutcome, buttons: string -> string): (r: (State, Option<StockUpdate>))
    ensures !Succeeds(o) ==> r == (n, None)
    ensures Succeeds(o) ==> r.0.lastStatus != Unknown
    ensures Succeeds(o) ==>
              var html := MarkupOf(c, o.data);
              r.0.lastStatus == InStock <==> JsonSaysInStock(html) || SaysPurchasable(buttons(html))
    ensures r.1.Some? <==> Succeeds(o) && r.0.lastStatus != n.lastStatus
    ensures r.1.None? ==> r.0 == n
    ensures r.1.Some? ==> r.1.value == StockUpdate("stock_update", c.product.site, c.product.name,
                                                   c.product.url, r.0.lastStatus)
  {
    match o
    case Failed(_) => (n, None)
    case Response(code, data) =>
      if !Accepted(code) then (n, None)
      else
        var html := MarkupOf(c, data);
        Notify(n, c.product, Classify(html, buttons(html)))
  }

  /** Polling again with the same outcome changes nothing and emits nothing. */
  lemma CheckIsIdempotent(c: Config, n: State, o: FetchOutcome, buttons: string -> string)
    ensures var (n1, _) := Check(c, n, o, buttons);
            Check(c, n1, o, buttons) == (n1, None)
  {
  }

  /** The first successful poll always emits, whatever the page says. */
  lemma FirstSuccessEmits(c: Config, o: FetchOutcome, buttons: string -> string)
    requires Succeeds(o)
    ensures Check(c, Initial, o, buttons).1.Some?
  {
  }

  /** With the guard, a non-string body is classified as empty markup, which
      is out of stock when empty markup yields no button text. */
  lemma GuardedNonStringIsEmptyMarkup(c: Config, n: State, code: int, v: string, buttons: string -> string)
    requires c.coerceNonString
    ensures Check(c, n, Response(code, NonString(v)), buttons) == Check(c, n, Response(code, Markup("")), buttons)
    ensures Accepted(code) && buttons("") == "" ==>
              Check(c, n, Response(code, NonString(v)), buttons).0.lastStatus == Oos
  {
  }

  /** Without the guard, a non-string body is tested through its string conversion. */
  lemma UnguardedNonStringIsItsText(c: Config, n: State, code: int, v: string, buttons: string -> string)
    requires !c.coerceNonString
    ensures Check(c, n, Response(code, NonString(v)), buttons) == Check(c, n, Response(code, Markup(v)), buttons)
  {
  }

  /** The guard is the only behavioural difference between deployments: on
      failures and on markup bodies they act alike. */
  lemma DeploymentsAgreeOnMarkup(c1: Config, c2: Config, n: State, o: FetchOutcome, buttons: string -> string)
    requires c1.product == c2.product
    requires !(o.Response? && o.data.NonString?)
    ensures Check(c1, n, o, buttons) == Check(c2, n, o, buttons)
  {
  }

  // ---------------------------------------------------------------------
  // A run of polls

  /** No two consecutive events carry the same status. */
  ghost predicate NoRepeats(log: seq<StockUpdate>) {
    forall k :: 0 < k < |log| ==> log[k - 1].status != log[k].status
  }

  /** The notifier state and the events emitted after polling with `outcomes` in order. */
  function Replay(c: Config, outcomes: seq<FetchOutcome>, buttons: string -> string): (r: (State, seq<StockUpdate>))
    ensures NoRepeats(r.1)
    ensures r.0.lastStatus == if |r.1| == 0 then Unknown else r.1[|r.1| - 1].status
    ensures |r.1| == 0 <==> forall k :: 0 <= k < |outcomes| ==> !Succeeds(outcomes[k])
    ensures forall k :: 0 <= k < |r.1| ==> r.1[k].status != Unknown && r.1[k] == UpdateFor(c.product, r.1[k].status)
    ensures |r.1| <= |outcomes|
    decreases |outcomes|
  {
    if |outcomes| == 0 then (Initial, [])
    else
      var (n, log) := Replay(c, outcomes[..|outcomes| - 1], buttons);
      var (n', e) := Check(c, n, outcomes[|outcomes| - 1], buttons);
      (n', if e.Some? then log + [e.value] else log)
  }

  /** Two identical outcomes in a row emit no more than one. */
  lemma RepeatedOutcomeIsSuppressed(c: Config, outcomes: seq<FetchOutcome>, o: FetchOutcome, buttons: string -> string)
    ensures Replay(c, outcomes + [o, o], buttons) == Replay(c, outcomes + [o], buttons)
  {
    var once := outcomes + [o];
    var twice := outcomes + [o, o];
    assert twice[..|twice| - 1] == once;
    assert once[..|once| - 1] == outcomes;
    CheckIsIdempotent(c, Replay(c, outcomes, buttons).0, o, buttons);
  }

  /** Polls once per outcome, in order, as the interval timer does. */
  method Poll(c: Config, outcomes: seq<FetchOutcome>, buttons: string -> string)
    returns (n: State, log: seq<StockUpdate>)
    ensures (n, log) == Replay(c, outcomes, buttons)
    ensures NoRepeats(log)
    ensures n.lastStatus == if |log| == 0 then Unknown else log[|log| - 1].status
  {
    n, log := Initial, [];
    var i := 0;
    while i < |outcomes|
      invariant 0 <= i <= |outcomes|
      invariant (n, log) == Replay(c, outcomes[..i], buttons)
    {
      assert outcomes[..i + 1][..i] == outcomes[..i];
      var (next, event) := Check(c, n, outcomes[i], buttons);
      n := next;
      if event.Some? {
        log := log + [event.value];
      }
      i := i + 1;
    }
    assert outcomes[..i] == outcomes;
  }
}
