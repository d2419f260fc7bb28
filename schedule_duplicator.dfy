/**
 * Duplication of a transit schedule with all its periods and trips.
 *
 * The copy starts from the schedule's cloned attributes (without id and
 * uuid), optionally moved to another service and line. Every period is
 * detached from the original schedule (schedule id -1), its inbound and
 * outbound path ids are translated through a path id mapping, and every
 * trip is re-linked to its period and has its path id translated.
 */
module Schedules {
  import opened JsValues
  import BaseObjects

  /** A trip record of a period. */
  datatype Trip = Trip(attributes: Attributes)

  /** A period record; `trips` is absent when the period has no trip list. */
  datatype Period = Period(attributes: Attributes, trips: Option<seq<Trip>>)

  /** A schedule's attributes; `periods` is absent when there is no period list. */
  datatype ScheduleAttributes = ScheduleAttributes(attributes: Attributes, periods: Option<seq<Period>>)

  /**
   * The duplication options: a line id and a service id to move the copy to
   * (absent for `false`), and the mapping from old to new path ids.
   */
  datatype DuplicateOptions = DuplicateOptions(lineId: Option<string>, serviceId: Option<string>,
                                               pathIdsMapping: map<string, string>)

  /** A truthy option value: present and not the empty string. */
  predicate Given(o: Option<string>)
  {
    o.Some? && o.value != ""
  }

  /** The new id for `id`, when `id` is a truthy string id whose mapped value is truthy. */
  function MappedId(mapping: map<string, string>, id: Value): Option<string>
  {
    if id.Str? && Truthy(id) && id.s in mapping && mapping[id.s] != "" then Some(mapping[id.s]) else None
  }

  /**
   * An id after translation: replaced by its mapped value when it has one,
   * left as it is otherwise; an empty mapping translates nothing.
   */
  function Remap(mapping: map<string, string>, id: Value): (r: Value)
    ensures mapping == map[] ==> r == id
    ensures r != id ==> id.Str? && id.s != "" && id.s in mapping && mapping[id.s] != "" && r == Str(mapping[id.s])
    ensures id.Str? && id.s != "" && id.s in mapping && mapping[id.s] != "" ==> r == Str(mapping[id.s])
  {
    match MappedId(mapping, id)
    case Some(newId) => Str(newId)
    case None => id
  }

  /** Trip `t'` is `t` linked to the period with id `periodId`, with its path id translated. */
  ghost predicate TripDuplicated(t: Trip, t': Trip, periodId: Value, mapping: map<string, string>)
  {
    Get(t'.attributes, "schedule_period_id") == periodId &&
    Get(t'.attributes, "path_id") == Remap(mapping, Get(t.attributes, "path_id")) &&
    forall k :: k != "schedule_period_id" && k != "path_id" ==> Get(t'.attributes, k) == Get(t.attributes, k)
  }

  /**
   * Period `p'` is `p` detached from its schedule, with both path ids
   * translated and the same trips, in the same order, each re-linked to the
   * period.
   */
  ghost predicate PeriodDuplicated(p: Period, p': Period, mapping: map<string, string>)
  {
    Get(p'.attributes, "schedule_id") == Number(-1) &&
    Get(p'.attributes, "inbound_path_id") == Remap(mapping, Get(p.attributes, "inbound_path_id")) &&
    Get(p'.attributes, "outbound_path_id") == Remap(mapping, Get(p.attributes, "outbound_path_id")) &&
    (forall k :: k != "schedule_id" && k != "inbound_path_id" && k != "outbound_path_id" ==>
      Get(p'.attributes, k) == Get(p.attributes, k)) &&
    p'.trips.Some? == p.trips.Some? &&
    (p.trips.Some? ==>
      |p'.trips.value| == |p.trips.value| &&
      forall n :: 0 <= n < |p.trips.value| ==>
        TripDuplicated(p.trips.value[n], p'.trips.value[n], Get(p.attributes, "id"), mapping))
  }

  /** The schedule's own attributes: the clone, with service and line replaced when given. */
  ghost predicate HeaderDuplicated(base: Attributes, a: Attributes, options: DuplicateOptions)
  {
    var c := BaseObjects.ClonedAttributes(base, true);
    Get(a, "service_id") == (if Given(options.serviceId) then Str(options.serviceId.value) else Get(c, "service_id")) &&
    Get(a, "line_id") == (if Given(options.lineId) then Str(options.lineId.value) else Get(c, "line_id")) &&
    forall k :: k != "service_id" && k != "line_id" ==> Get(a, k) == Get(c, k)
  }

  /** `duplicateSchedule`: the attributes the new schedule is constructed from. */
  method DuplicateSchedule(base: ScheduleAttributes, options: DuplicateOptions) returns (r: ScheduleAttributes)
    ensures HeaderDuplicated(base.attributes, r.attributes, options)
    ensures Get(r.attributes, "id") == Undefined && Get(r.attributes, "uuid") == Undefined
    ensures r.periods.Some? == base.periods.Some?
    ensures base.periods.Some? ==>
      |r.periods.value| == |base.periods.value| &&
      forall n :: 0 <= n < |base.periods.value| ==>
        PeriodDuplicated(base.periods.value[n], r.periods.value[n], options.pathIdsMapping)
  {
    var mapping := options.pathIdsMapping;
    var newScheduleAttribs := BaseObjects.ClonedAttributes(base.attributes, true);
    if Given(options.serviceId) {
      newScheduleAttribs := newScheduleAttribs["service_id" := Str(options.serviceId.value)];
    }
    if Given(options.lineId) {
      newScheduleAttribs := newScheduleAttribs["line_id" := Str(options.lineId.value)];
    }
    var periods := base.periods;
    if periods.Some? {
      var ps := periods.value;
      for periodI := 0 to |ps|
        invariant |ps| == |base.periods.value|
        invariant forall q :: 0 <= q < periodI ==> PeriodDuplicated(base.periods.value[q], ps[q], mapping)
        invariant forall q :: periodI <= q < |ps| ==> ps[q] == base.periods.value[q]
      {
        var period := ps[periodI];
        var duplicated := DuplicatePeriod(period, mapping);
        ps := ps[periodI := duplicated];
      }
      periods := Some(ps);
    }
    r := ScheduleAttributes(newScheduleAttribs, periods);
  }

  /** One period of the outer loop of `duplicateSchedule`, with the inner loop over its trips. */
  method DuplicatePeriod(period: Period, mapping: map<string, string>) returns (p': Period)
    ensures PeriodDuplicated(period, p', mapping)
  {
    var pa := period.attributes["schedule_id" := Number(-1)];
    match MappedId(mapping, Get(pa, "inbound_path_id")) {
      case Some(newId) => pa := pa["inbound_path_id" := Str(newId)];
      case None =>
    }
    match MappedId(mapping, Get(pa, "outbound_path_id")) {
      case Some(newId) => pa := pa["outbound_path_id" := Str(newId)];
      case None =>
    }
    var trips := period.trips;
    if trips.Some? {
      var ts := trips.value;
      for tripI := 0 to |ts|
        invariant |ts| == |period.trips.value|
        invariant forall q :: 0 <= q < tripI ==> TripDuplicated(period.trips.value[q], ts[q], Get(pa, "id"), mapping)
        invariant forall q :: tripI <= q < |ts| ==> ts[q] == period.trips.value[q]
      {
        var duplicated := DuplicateTrip(ts[tripI], Get(pa, "id"), mapping);
        ts := ts[tripI := duplicated];
      }
      trips := Some(ts);
    }
    p' := Period(pa, trips);
  }

  /** One trip of the inner loop: re-link it to the period and translate its path id. */
  method DuplicateTrip(t: Trip, periodId: Value, mapping: map<string, string>) returns (t': Trip)
    ensures TripDuplicated(t, t', periodId, mapping)
  {
    var ta := t.attributes["schedule_period_id" := periodId];
    match MappedId(mapping, Get(ta, "path_id")) {
      case Some(newId) => ta := ta["path_id" := Str(newId)];
      case None =>
    }
    t' := Trip(ta);
  }

  /** Duplicating with an empty mapping keeps every path id of every period and trip. */
  lemma EmptyMappingKeepsPathIds(p: Period, p': Period)
    requires PeriodDuplicated(p, p', map[])
    ensures Get(p'.attributes, "inbound_path_id") == Get(p.attributes, "inbound_path_id")
    ensures Get(p'.attributes, "outbound_path_id") == Get(p.attributes, "outbound_path_id")
    ensures p.trips.Some? ==> forall n :: 0 <= n < |p.trips.value| ==>
      Get(p'.trips.value[n].attributes, "path_id") == Get(p.trips.value[n].attributes, "path_id")
  {
    if p.trips.Some? {
      forall n | 0 <= n < |p.trips.value|
        ensures Get(p'.trips.value[n].attributes, "path_id") == Get(p.trips.value[n].attributes, "path_id")
      {
        assert TripDuplicated(p.trips.value[n], p'.trips.value[n], Get(p.attributes, "id"), map[]);
      }
    }
  }

  /** Every trip of a duplicated period points at that period's id, which duplication leaves unchanged. */
  lemma TripsPointAtTheirPeriod(p: Period, p': Period, mapping: map<string, string>)
    requires PeriodDuplicated(p, p', mapping)
    ensures Get(p'.attributes, "id") == Get(p.attributes, "id")
    ensures p'.trips.Some? ==> forall n :: 0 <= n < |p'.trips.value| ==>
      Get(p'.trips.value[n].attributes, "schedule_period_id") == Get(p'.attributes, "id")
  {
    assert Get(p'.attributes, "id") == Get(p.attributes, "id");
    if p'.trips.Some? {
      forall n | 0 <= n < |p'.trips.value|
        ensures Get(p'.trips.value[n].attributes, "schedule_period_id") == Get(p'.attributes, "id")
      {
        assert TripDuplicated(p.trips.value[n], p'.trips.value[n], Get(p.attributes, "id"), mapping);
      }
    }
  }
}
