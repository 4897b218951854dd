/** Change-triggered notification: the monitor remembers the last status it
    announced and emits a `stock_update` event only when a new status differs. */
module Notifier {
  import opened Classifier

  datatype Option<T> = None | Some(value: T)

  /** The monitored product; all three fields are copied into every event. */
  datatype Product = Product(site: string, name: string, url: string)

  /** The payload sent on the `stock_update` channel. The timestamp the
      monitor adds is not modelled. */
  datatype StockUpdate = StockUpdate(kind: string, site: string, name: string, url: string, status: Status)

  const UpdateKind: string := "stock_update"

  /** The event announcing `status` for `product`. */
  function UpdateFor(product: Product, status: Status): StockUpdate {
    StockUpdate(UpdateKind, product.site, product.name, product.url, status)
  }

  /** The notifier's state, one field: the last status announced. */
  datatype State = State(lastStatus: Status)

  const Initial: State := State(Unknown)

  /** Records a freshly classified status, emitting an event exactly when it
      differs from the one last announced. */
  function Notify(n: State, product: Product, status: Status): (r: (State, Option<StockUpdate>))
    ensures r.0.lastStatus == status
    ensures r.1.Some? <==> status != n.lastStatus
    ensures r.1.None? ==> r.0 == n
    ensures r.1.Some? ==> && r.1.value.kind == "stock_update"
                          && r.1.value.site == product.site
                          && r.1.value.name == product.name
                          && r.1.value.url == product.url
                          && r.1.value.status == status
  {
    if status != n.lastStatus then (State(status), Some(UpdateFor(product, status)))
    else (n, None)
  }

  /** Announcing the same status twice emits only the first time. */
  lemma NotifyIsIdempotent(n: State, product: Product, status: Status)
    ensures var (n1, _) := Notify(n, product, status);
            Notify(n1, product, status) == (n1, None)
  {
  }

  /** The first classified status is always announced, since the classifier
      never yields the initial `Unknown`. */
  lemma FirstStatusIsAnnounced(product: Product, html: string, buttonText: string)
    ensures Notify(Initial, product, Classify(html, buttonText)).1 == Some(UpdateFor(product, Classify(html, buttonText)))
  {
  }
}
