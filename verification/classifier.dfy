/** The Target availability classifier: structured-data flags first, the text
    of the purchase buttons only when no flag matched, out of stock otherwise. */
module Classifier {
  import opened Text
  import opened Patterns

  /** The status values the monitor stores and emits. `Unknown` is only the
      initial value of the notifier; the classifier never yields it. */
  datatype Status = Unknown | InStock | Oos
  {
    /** The string the monitor stores in `lastStatus` and sends in an event. */
    function Name(): string {
      match this
      case Unknown => "unknown"
      case InStock => "in_stock"
      case Oos => "oos"
    }
  }

  /** The monitor compares the status strings; comparing the status values
      instead loses nothing because the names are distinct. */
  lemma NamesIdentifyStatus(a: Status, b: Status)
    ensures a.Name() == b.Name() <==> a == b
  {
  }

  /** One of the two structured-data in-stock flags occurs in the markup. */
  ghost predicate JsonSaysInStock(html: string) {
    Matches(html, Availability) || Matches(html, AvailabilityStatus)
  }

  /** The status of a page, given its markup and the concatenated text of its
      buttons. The button text is consulted only when no JSON flag matched. */
  function Classify(html: string, buttonText: string): (r: Status)
    ensures r != Unknown
    ensures r == InStock <==> JsonSaysInStock(html) || SaysPurchasable(buttonText)
    ensures r == Oos <==> !JsonSaysInStock(html) && !SaysPurchasable(buttonText)
  {
    var inJson := Test(html, Availability) || Test(html, AvailabilityStatus);
    var inButtons := if !inJson then ButtonsMatch(buttonText) else false;
    if inJson || inButtons then InStock else Oos
  }

  /** A JSON flag decides the outcome alone: the button text is irrelevant. */
  lemma JsonFlagOverridesButtons(html: string, b1: string, b2: string)
    requires JsonSaysInStock(html)
    ensures Classify(html, b1) == InStock
    ensures Classify(html, b1) == Classify(html, b2)
  {
  }

  /** Without a JSON flag and without a purchase phrase the page is out of stock. */
  lemma NoSignalIsOutOfStock(html: string, buttonText: string)
    requires !JsonSaysInStock(html)
    requires forall k :: 0 <= k < |PurchasePhrases| ==> !Says(buttonText, PurchasePhrases[k])
    ensures Classify(html, buttonText) == Oos
  {
  }

  /** Button texts that differ only in ASCII case classify alike. */
  lemma ButtonCaseIsIgnored(html: string, b1: string, b2: string)
    requires SameFold(b1, b2)
    ensures Classify(html, b1) == Classify(html, b2)
  {
    assert LowerStr(b1) == LowerStr(b2) by {
      forall i | 0 <= i < |b1| ensures LowerStr(b1)[i] == LowerStr(b2)[i] {
        assert Lower(b1[i]) == Lower(b2[i]) by {
          assert FoldAt(b1, 0, b2);
          assert b1[0 + i] == b1[i];
        }
      }
    }
  }

  /** The `availability` flag, in any case, with any whitespace around the
      colon and with or without an `http://schema.org/` or
      `https://schema.org/` prefix, makes any page in stock. */
  lemma AvailabilityFlagMeansInStock(before: string, key: string, w1: string, w2: string,
                                     t: nat, tail: string, after: string, buttonText: string)
    requires SameFold(key, "\"availability\"")
    requires AllWs(w1, 0, |w1|) && AllWs(w2, 0, |w2|)
    requires t < 3
    requires SameFold(tail, ["", "http://schema.org/", "https://schema.org/"][t] + "InStock\"")
    ensures Classify(before + key + w1 + ":" + w2 + "\"" + tail + after, buttonText) == InStock
  {
    var html := before + key + w1 + ":" + w2 + "\"" + tail + after;
    assert Availability.Opening() == "\"availability\"";
    assert Availability.Tail(t) == ["", "http://schema.org/", "https://schema.org/"][t] + "InStock\"";
    FormMatches(html, Availability, before, key, w1, w2, t, tail, after);
  }

  /** The `availabilityStatus` flag `IN_STOCK`, in any case and with any
      whitespace around the colon, makes any page in stock. */
  lemma AvailabilityStatusFlagMeansInStock(before: string, key: string, w1: string, w2: string,
                                           tail: string, after: string, buttonText: string)
    requires SameFold(key, "\"availabilityStatus\"")
    requires AllWs(w1, 0, |w1|) && AllWs(w2, 0, |w2|)
    requires SameFold(tail, "IN_STOCK\"")
    ensures Classify(before + key + w1 + ":" + w2 + "\"" + tail + after, buttonText) == InStock
  {
    var html := before + key + w1 + ":" + w2 + "\"" + tail + after;
    assert AvailabilityStatus.Opening() == "\"availabilityStatus\"";
    assert AvailabilityStatus.Tail(0) == "IN_STOCK\"";
    FormMatches(html, AvailabilityStatus, before, key, w1, w2, 0, tail, after);
  }

  /** Conversely, a page is in stock only through a flag of that shape or a
      purchase phrase in its button text. */
  lemma InStockHasEvidence(html: string, buttonText: string)
    requires Classify(html, buttonText) == InStock
    ensures || SaysPurchasable(buttonText)
            || (exists before, key, w1, w2, t, tail, after ::
                  JsonForm(html, Availability, before, key, w1, w2, t, tail, after))
            || (exists before, key, w1, w2, t, tail, after ::
                  JsonForm(html, AvailabilityStatus, before, key, w1, w2, t, tail, after))
  {
    if Matches(html, Availability) {
      MatchHasForm(html, Availability);
    } else if Matches(html, AvailabilityStatus) {
      MatchHasForm(html, AvailabilityStatus);
    }
  }

  /** A page carrying `"availabilityStatus":"IN_STOCK"` is in stock whatever its buttons say. */
  lemma StatusFlagExample(buttonText: string)
    ensures Classify("{\"availabilityStatus\":\"IN_STOCK\"}", buttonText) == InStock
  {
    assert "{\"availabilityStatus\":\"IN_STOCK\"}"
        == "{" + "\"availabilityStatus\"" + "" + ":" + "" + "\"" + "IN_STOCK\"" + "}";
    assert SameFold("\"availabilityStatus\"", "\"availabilityStatus\"");
    assert SameFold("IN_STOCK\"", "IN_STOCK\"");
    AvailabilityStatusFlagMeansInStock("{", "\"availabilityStatus\"", "", "", "IN_STOCK\"", "}", buttonText);
  }
}
