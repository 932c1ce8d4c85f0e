/** The siege schedule: the list of (day, hour, concurrent sieges) slots
    read from the siege schedule XML document. The document is given as
    its tree of elements; the attributes the reader looks at on a
    `schedule` element arrive already parsed (the day as an optional
    weekday, the hour and the concurrency limit as integers). */
module SiegeSchedule {
  import opened Common

  datatype DayOfWeek = MONDAY | TUESDAY | WEDNESDAY | THURSDAY | FRIDAY | SATURDAY | SUNDAY

  /** The attributes of an element, as the schedule reader reads them. */
  datatype Attributes = Attributes(day: Option<DayOfWeek>, hour: int, maxConcurrent: int)

  datatype XmlNode = XmlNode(name: string, attributes: Attributes, children: seq<XmlNode>)

  datatype SiegeScheduleDate = SiegeScheduleDate(day: DayOfWeek, hour: int, maxConcurrent: int)

  /** The day of a `schedule` element: its `day` attribute, SUNDAY when absent. */
  function DayOf(a: Attributes): DayOfWeek {
    if a.day.Some? then a.day.value else SUNDAY
  }

  function EntryOf(n: XmlNode): SiegeScheduleDate {
    SiegeScheduleDate(DayOf(n.attributes), n.attributes.hour, n.attributes.maxConcurrent)
  }

  /** The nodes of `nodes` with the given name, in order (what `forEach` visits). */
  function Named(nodes: seq<XmlNode>, name: string): (r: seq<XmlNode>)
    ensures |r| <= |nodes|
    ensures forall k | 0 <= k < |r| :: r[k].name == name && r[k] in nodes
  {
    if nodes == [] then []
    else Named(nodes[..|nodes| - 1], name) + (if nodes[|nodes| - 1].name == name then [nodes[|nodes| - 1]] else [])
  }

  /** The `schedule` elements of the document's `list` elements, in document order. */
  function ScheduleNodes(doc: seq<XmlNode>): seq<XmlNode> {
    if doc == [] then []
    else
      var last := doc[|doc| - 1];
      ScheduleNodes(doc[..|doc| - 1]) + (if last.name == "list" then Named(last.children, "schedule") else [])
  }

  /** One entry per node, in order. */
  function Entries(nodes: seq<XmlNode>): (r: seq<SiegeScheduleDate>)
    ensures |r| == |nodes|
    ensures forall k | 0 <= k < |nodes| :: r[k] == EntryOf(nodes[k])
  {
    if nodes == [] then [] else Entries(nodes[..|nodes| - 1]) + [EntryOf(nodes[|nodes| - 1])]
  }

  /** The list after `load`: the parsed entries, or the default entry alone when there are none. */
  function Loaded(doc: seq<XmlNode>, defaultDate: SiegeScheduleDate): seq<SiegeScheduleDate> {
    var parsed := Entries(ScheduleNodes(doc));
    if parsed == [] then [defaultDate] else parsed
  }

  lemma EntriesSnoc(nodes: seq<XmlNode>, n: XmlNode)
    ensures Entries(nodes + [n]) == Entries(nodes) + [EntryOf(n)]
  {
    assert (nodes + [n])[..|nodes|] == nodes;
  }

  lemma NamedStep(before: seq<XmlNode>, nodes: seq<XmlNode>, j: int, name: string)
    requires 0 <= j < |nodes|
    ensures before + Named(nodes[..j + 1], name)
         == (before + Named(nodes[..j], name)) + (if nodes[j].name == name then [nodes[j]] else [])
  {
    assert nodes[..j + 1][..j] == nodes[..j];
  }

  // ---- properties

  /** `load` never leaves the list empty. */
  lemma LoadedNotEmpty(doc: seq<XmlNode>, defaultDate: SiegeScheduleDate)
    ensures |Loaded(doc, defaultDate)| >= 1
  {
  }

  /** Without any `schedule` element the list is exactly the default entry;
      otherwise it holds one entry per element, in document order, with the
      element's hour and concurrency and its day or SUNDAY. */
  lemma LoadedEntries(doc: seq<XmlNode>, defaultDate: SiegeScheduleDate)
    ensures ScheduleNodes(doc) == [] ==> Loaded(doc, defaultDate) == [defaultDate]
    ensures var nodes, r := ScheduleNodes(doc), Loaded(doc, defaultDate);
      nodes != [] ==>
        && |r| == |nodes|
        && forall k | 0 <= k < |nodes| ::
             && r[k].hour == nodes[k].attributes.hour
             && r[k].maxConcurrent == nodes[k].attributes.maxConcurrent
             && (nodes[k].attributes.day.None? ==> r[k].day == SUNDAY)
             && (nodes[k].attributes.day.Some? ==> r[k].day == nodes[k].attributes.day.value)
  {
  }

  /** `forEach` keeps document order: the elements named `name` of `a + b`
      are those of `a` followed by those of `b`. */
  lemma {:induction false} NamedAppend(a: seq<XmlNode>, b: seq<XmlNode>, name: string)
    ensures Named(a + b, name) == Named(a, name) + Named(b, name)
    decreases |b|
  {
    if b == [] {
      assert a + b == a;
    } else {
      var b' := b[..|b| - 1];
      assert (a + b)[..|a + b| - 1] == a + b';
      NamedAppend(a, b', name);
    }
  }

  /** Every element named `name` is visited, and only those. */
  lemma {:induction false} NamedMembers(nodes: seq<XmlNode>, name: string, n: XmlNode)
    ensures n in Named(nodes, name) <==> n in nodes && n.name == name
  {
    if nodes != [] {
      var p := nodes[..|nodes| - 1];
      assert nodes == p + [nodes[|nodes| - 1]];
      NamedMembers(p, name, n);
    }
  }

  /** The schedules of two documents' worth of top-level elements are the
      schedules of the first followed by those of the second. */
  lemma {:induction false} ScheduleNodesAppend(a: seq<XmlNode>, b: seq<XmlNode>)
    ensures ScheduleNodes(a + b) == ScheduleNodes(a) + ScheduleNodes(b)
    decreases |b|
  {
    if b == [] {
      assert a + b == a;
    } else {
      var b', last := b[..|b| - 1], b[|b| - 1];
      var tail := if last.name == "list" then Named(last.children, "schedule") else [];
      assert (a + b)[..|a + b| - 1] == a + b' && (a + b)[|a + b| - 1] == last;
      calc {
        ScheduleNodes(a + b);
        ScheduleNodes(a + b') + tail;
        { ScheduleNodesAppend(a, b'); }
        (ScheduleNodes(a) + ScheduleNodes(b')) + tail;
        ScheduleNodes(a) + (ScheduleNodes(b') + tail);
      }
    }
  }

  /** A `schedule` element contributes an entry exactly when it sits
      directly under a `list` element of the document. */
  lemma {:induction false} ScheduleNodesMembers(doc: seq<XmlNode>, n: XmlNode)
    ensures n in ScheduleNodes(doc) <==>
      n.name == "schedule" && exists list | list in doc :: list.name == "list" && n in list.children
  {
    if doc != [] {
      var p, last := doc[..|doc| - 1], doc[|doc| - 1];
      assert doc == p + [last];
      ScheduleNodesMembers(p, n);
      NamedMembers(last.children, "schedule", n);
      if n.name == "schedule" && (exists list | list in doc :: list.name == "list" && n in list.children) {
        var list :| list in doc && list.name == "list" && n in list.children;
        if list != last {
          assert list in p;
        }
      }
    }
  }

  class SiegeScheduleData {
    var scheduleData: seq<SiegeScheduleDate>
    /** The entry `new SiegeScheduleDate()` makes; its values are set by a
        class that is not part of this model. */
    const defaultDate: SiegeScheduleDate

    /** The singleton's construction loads the document once. */
    constructor (doc: seq<XmlNode>, defaultDate: SiegeScheduleDate)
      ensures this.defaultDate == defaultDate
      ensures scheduleData == Loaded(doc, defaultDate)
    {
      this.defaultDate := defaultDate;
      scheduleData := [];
      new;
      Load(doc);
    }

    /** `load`: clears the list, parses the document, and adds the default
        entry when nothing was parsed. */
    method Load(doc: seq<XmlNode>)
      modifies this`scheduleData
      ensures scheduleData == Loaded(doc, defaultDate)
    {
      scheduleData := [];
      ParseDocument(doc);
      if scheduleData == [] {
        scheduleData := scheduleData + [defaultDate];
      }
    }

    /** `parseDocument`: one entry per `schedule` element of each `list` element. */
    method ParseDocument(doc: seq<XmlNode>)
      modifies this`scheduleData
      ensures scheduleData == old(scheduleData) + Entries(ScheduleNodes(doc))
    {
      var data := scheduleData;
      ghost var nodes: seq<XmlNode> := [];
      for i := 0 to |doc|
        invariant nodes == ScheduleNodes(doc[..i])
        invariant data == old(scheduleData) + Entries(nodes)
      {
        assert doc[..i + 1][..i] == doc[..i];
        var listNode := doc[i];
        if listNode.name == "list" {
          ghost var before := nodes;
          var children := listNode.children;
          for j := 0 to |children|
            invariant nodes == before + Named(children[..j], "schedule")
            invariant data == old(scheduleData) + Entries(nodes)
          {
            NamedStep(before, children, j, "schedule");
            var scheduleNode := children[j];
            if scheduleNode.name == "schedule" {
              var attrs := scheduleNode.attributes;
              var day := if attrs.day.Some? then attrs.day.value else SUNDAY;
              EntriesSnoc(nodes, scheduleNode);
              ConcatAssociates(old(scheduleData), Entries(nodes), [EntryOf(scheduleNode)]);
              data := data + [SiegeScheduleDate(day, attrs.hour, attrs.maxConcurrent)];
              nodes := nodes + [scheduleNode];
            }
          }
          assert children[..|children|] == children;
        }
      }
      assert doc[..|doc|] == doc;
      scheduleData := data;
    }

    /** `getScheduleDates`: the list itself. */
    function GetScheduleDates(): (r: seq<SiegeScheduleDate>)
      reads this
      ensures r == scheduleData
    {
      scheduleData
    }
  }
}
