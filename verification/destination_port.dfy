/** The port class of src/destination/port.py: an id that can only be
    read, a name and a maximum capacity that can be replaced, a capacity
    filter that rewrites a size label into a number of berths in place, and
    the text representation.
 */
module DestinationPort {
  import opened Base
  import opened Text
  import opened AgentsPort

  datatype DestPort = DestPort(id: int, name: string, maxCapacity: Capacity, current: int)

  /** Assigning the read-only `port_id` property fails. */
  function SetPortId(p: DestPort, id: int): (r: Result<DestPort>)
    ensures r.Err? && r.error == AttributeError("port_id")
  {
    Err(AttributeError("port_id"))
  }

  /** The `port_name` setter replaces the name and nothing else. */
  function SetPortName(p: DestPort, name: string): (q: DestPort)
    ensures q.name == name
    ensures q.id == p.id && q.maxCapacity == p.maxCapacity && q.current == p.current
  {
    p.(name := name)
  }

  /** The `max_capacity` setter replaces the capacity and nothing else. */
  function SetMaxCapacity(p: DestPort, c: Capacity): (q: DestPort)
    ensures q.maxCapacity == c
    ensures q.id == p.id && q.name == p.name && q.current == p.current
  {
    p.(maxCapacity := c)
  }

  /** `max_capacity_filter` as written: the capacity label 'M' becomes 30
      berths and 'L' 60, in place; anything else stays; the call returns
      nothing (`None`). */
  function MaxCapacityFilterAsWritten(p: DestPort): (r: (Option<int>, DestPort))
    ensures r.0 == None
    ensures r.1.maxCapacity == CapacityFilter(p.maxCapacity)
    ensures r.1.id == p.id && r.1.name == p.name && r.1.current == p.current
  {
    var q := if p.maxCapacity == Label("M") then SetMaxCapacity(p, Berths(30))
             else if p.maxCapacity == Label("L") then SetMaxCapacity(p, Berths(60))
             else p;
    (None, q)
  }

  /** The filter as evidently intended: the same rewrite, returning the
      number of berths, as the agents' port class does. */
  function MaxCapacityFilter(p: DestPort): (r: (Option<int>, DestPort))
    ensures r.1 == MaxCapacityFilterAsWritten(p).1
    ensures r.0.Some? <==> r.1.maxCapacity.Berths?
    ensures r.0.Some? ==> r.0.value == r.1.maxCapacity.n
  {
    var q := MaxCapacityFilterAsWritten(p).1;
    match q.maxCapacity
    case Berths(n) => (Some(n), q)
    case Label(_) => (None, q)
  }

  /** The filter is idempotent: filtering a filtered port changes nothing. */
  lemma FilterIdempotent(p: DestPort)
    ensures MaxCapacityFilterAsWritten(MaxCapacityFilterAsWritten(p).1).1 == MaxCapacityFilterAsWritten(p).1
  {
    CapacityFilterIdempotent(p.maxCapacity);
  }

  /** The text of a capacity inside an f-string. */
  function CapacityText(c: Capacity): string
  {
    match c
    case Label(t) => t
    case Berths(n) => IntToDecimal(n)
  }

  /** `__repr__` as written: the id is printed in the name slot too, and the
      capacity unfiltered. */
  function ReprAsWritten(p: DestPort): (r: string)
    ensures var pre := BeforeName(IntToDecimal(p.id)); var shown := IntToDecimal(p.id);
      && |r| == |pre| + |shown| + |AfterName(CapacityText(p.maxCapacity), IntToDecimal(p.current))|
      && r[..|pre|] == pre
      && r[|pre|..|pre| + |shown|] == shown
      && r[|pre| + |shown|..] == AfterName(CapacityText(p.maxCapacity), IntToDecimal(p.current))
  {
    var r := ReprWith(IntToDecimal(p.id), IntToDecimal(p.id), CapacityText(p.maxCapacity), IntToDecimal(p.current));
    SlotsOf(BeforeName(IntToDecimal(p.id)), IntToDecimal(p.id), AfterName(CapacityText(p.maxCapacity), IntToDecimal(p.current)));
    r
  }

  /** The evidently intended representation: the name in the name slot and
      the filtered capacity, as the agents' port class prints it. */
  function Repr(p: DestPort): (r: string)
    ensures var pre := BeforeName(IntToDecimal(p.id));
      && |r| == |pre| + |p.name| + |AfterName(CapacityText(CapacityFilter(p.maxCapacity)), IntToDecimal(p.current))|
      && r[..|pre|] == pre
      && r[|pre|..|pre| + |p.name|] == p.name
      && r[|pre| + |p.name|..] == AfterName(CapacityText(CapacityFilter(p.maxCapacity)), IntToDecimal(p.current))
  {
    var r := ReprWith(IntToDecimal(p.id), p.name, CapacityText(CapacityFilter(p.maxCapacity)), IntToDecimal(p.current));
    SlotsOf(BeforeName(IntToDecimal(p.id)), p.name, AfterName(CapacityText(CapacityFilter(p.maxCapacity)), IntToDecimal(p.current)));
    r
  }

  /** The three parts of a text put together can be read back off it. */
  lemma SlotsOf(pre: string, mid: string, post: string)
    ensures var r := pre + mid + post;
      && |r| == |pre| + |mid| + |post|
      && r[..|pre|] == pre && r[|pre|..|pre| + |mid|] == mid && r[|pre| + |mid|..] == post
  {
    var r := pre + mid + post;
    assert r[..|pre|] == pre;
    assert r[|pre|..|pre| + |mid|] == mid;
    assert r[|pre| + |mid|..] == post;
  }

  /** The representation's layout around its four slots: the text before
      the name slot, the name, and the text after it. */
  function ReprWith(id: string, name: string, capacity: string, current: string): string
  {
    BeforeName(id) + name + AfterName(capacity, current)
  }

  function BeforeName(id: string): string
  {
    "Port (id: " + id + ",name: "
  }

  function AfterName(capacity: string, current: string): string
  {
    ",max capacity: " + capacity + ", current_capacity: " + current + ")"
  }

  /** Two ports with different names and the same id, capacity and count
      have different intended representations; the representation as
      written cannot tell them apart. */
  lemma ReprShowsName(p: DestPort, name: string)
    requires name != p.name
    ensures Repr(p) != Repr(p.(name := name))
    ensures ReprAsWritten(p) == ReprAsWritten(p.(name := name))
  {
    SlotDiffers(BeforeName(IntToDecimal(p.id)), p.name, name,
                AfterName(CapacityText(CapacityFilter(p.maxCapacity)), IntToDecimal(p.current)));
  }

  /** Different texts in the same slot give different strings. */
  lemma SlotDiffers(pre: string, a: string, b: string, post: string)
    requires a != b
    ensures pre + a + post != pre + b + post
  {
    if |a| == |b| {
      var k :| 0 <= k < |a| && a[k] != b[k];
      assert (pre + a + post)[|pre| + k] == a[k];
      assert (pre + b + post)[|pre| + k] == b[k];
    }
  }

  /** The first port of the port tests: Amsterdam, id 123, size 'M'. */
  const Amsterdam := DestPort(123, "Amsterdam", Label("M"), 0)

  /** The port tests' expectations against the code: the filter returns
      nothing where 30 is expected, and the representation shows the id and
      the label where the name and 30 are expected; the intended filter and
      representation give exactly what the tests expect. */
  lemma PortTestsAgainstCode()
    ensures MaxCapacityFilterAsWritten(Amsterdam).0 == None
    ensures MaxCapacityFilter(Amsterdam).0 == Some(30)
    ensures ReprAsWritten(Amsterdam) == ReprWith("123", "123", "M", "0")
    ensures Repr(Amsterdam) == ReprWith("123", "Amsterdam", "30", "0")
  {
    assert IntToDecimal(123) == "123" by {
      assert NatToDecimal(1) == "1";
      assert NatToDecimal(12) == "12";
    }
    assert IntToDecimal(30) == "30" by {
      assert NatToDecimal(3) == "3";
    }
    assert IntToDecimal(0) == "0";
  }
}
