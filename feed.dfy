/** The itinerary feed as the analysis sees it: the XML tree is replaced by the
    few things the queries read from it, in document order. */
module Feed {
  import opened Wrappers

  /** One element met while iterating a `Flight` element with `iter('*')`: its tag and
      its text (None when the element has no text node). */
  datatype Element = Element(tag: string, text: Option<string>)

  /** One `Flight` element: everything `flight.iter('*')` yields, in document order.
      That listing starts with the `Flight` element itself. */
  datatype FlightNode = FlightNode(elems: seq<Element>)

  /** A `ServiceCharges` element of a pricing block. */
  datatype ServiceCharge = ServiceCharge(chargeType: Option<string>, text: Option<string>)

  /** A `Pricing` element: its `currency` attribute and its `ServiceCharges` children. */
  datatype Pricing = Pricing(currency: Option<string>, charges: seq<ServiceCharge>)

  /** One `OnwardPricedItinerary/Flights` element: its `Flight` descendants in document
      order, and the `Pricing` elements that `../../Pricing` reaches from it. */
  datatype Itinerary = Itinerary(flights: seq<FlightNode>, pricing: seq<Pricing>)

  /** The whole feed: every `//OnwardPricedItinerary/Flights` element in document order. */
  datatype Document = Document(itineraries: seq<Itinerary>)

  const FlightTag: string := "Flight"
  const TotalAmount: string := "TotalAmount"

  /** Python's `str.isspace` for one character. */
  predicate IsSpace(c: char)
  {
    var n := c as int;
    n == 0x20 || 0x09 <= n <= 0x0D || 0x1C <= n <= 0x1F || n == 0x85 || n == 0xA0
    || n == 0x1680 || 0x2000 <= n <= 0x200A || n == 0x2028 || n == 0x2029
    || n == 0x202F || n == 0x205F || n == 0x3000
  }

  function TrimStart(s: string): (r: string)
    ensures |r| <= |s| && r == s[|s| - |r|..]
    ensures r == [] || !IsSpace(r[0])
    ensures forall k :: 0 <= k < |s| - |r| ==> IsSpace(s[k])
  {
    if s != [] && IsSpace(s[0]) then TrimStart(s[1..]) else s
  }

  function TrimEnd(s: string): (r: string)
    ensures |r| <= |s| && r == s[..|r|]
    ensures r == [] || !IsSpace(r[|r| - 1])
    ensures forall k :: |r| <= k < |s| ==> IsSpace(s[k])
  {
    if s != [] && IsSpace(s[|s| - 1]) then TrimEnd(s[..|s| - 1]) else s
  }

  /** How many whitespace characters `str.strip()` removes from the front of `s`. */
  function Lead(s: string): (n: nat)
    ensures n <= |s|
  {
    |s| - |TrimStart(s)|
  }

  /** Python's `str.strip()`: the text without its leading and trailing whitespace. */
  function Strip(s: string): (r: string)
    ensures r == [] || (!IsSpace(r[0]) && !IsSpace(r[|r| - 1]))
    ensures Lead(s) + |r| <= |s| && r == s[Lead(s)..Lead(s) + |r|]
    ensures forall k :: 0 <= k < Lead(s) ==> IsSpace(s[k])
    ensures forall k :: Lead(s) + |r| <= k < |s| ==> IsSpace(s[k])
  {
    TrimEnd(TrimStart(s))
  }

  /** Stripping twice is stripping once. */
  lemma StripIdempotent(s: string)
    ensures Strip(Strip(s)) == Strip(s)
  {
    var r := Strip(s);
    assert TrimStart(r) == r;
    assert TrimEnd(r) == r;
  }
}
