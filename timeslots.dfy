/** The opening-hours and page-text tables of js/parser.js: `processTimeslotsData`
    (rows of the timeslots table grouped into slots with weekly schedules),
    `processContentData` (menu headers and content items), the legacy
    `processInfoData` that reads both from one table, and
    `collapseTimeSlotDays`, which merges consecutive weekdays with the same
    hours into day ranges. */
module Timeslots {
  import opened Collections
  import opened Text
  import opened Values
  import opened Utils

  // ------------------------------------------------------------ data

  /** One opening of a slot on a weekday (1 is Monday, 7 is Sunday). */
  datatype Entry = Entry(day: nat, open: string, close: string)

  datatype TimeSlot = TimeSlot(id: string, labelIt: string, labelEn: string,
                               isKitchen: bool, showInHero: bool, showInInfo: bool,
                               schedule: seq<Entry>)

  /** One line of a collapsed schedule: the day or day range in both languages
      and the hours. */
  datatype DayRange = DayRange(daysIt: string, daysEn: string, times: string)

  /** A slot as the info section lists it: the slot with its collapsed schedule. */
  datatype InfoSlot = InfoSlot(slot: TimeSlot, collapsedSchedule: seq<DayRange>)

  datatype TimeslotsData = TimeslotsData(timeSlots: seq<TimeSlot>, timeSlotsForHero: seq<TimeSlot>,
                                         timeSlotsForInfo: seq<InfoSlot>)

  /** What an accepted row contributes: the slot id, the labels and flags the
      slot takes if this is its first row, and a schedule entry when the row
      has both hours. */
  datatype SlotRow = SlotRow(id: string, labelIt: string, labelEn: string,
                             isKitchen: bool, showInHero: bool, showInInfo: bool,
                             entry: Option<Entry>)

  const Weekdays: seq<string> := ["mon", "tue", "wed", "thu", "fri", "sat", "sun"]

  /** `dayToNum[day]`; 0 stands for undefined. */
  function DayNumber(day: string): (n: nat)
    ensures n <= 7
    ensures n != 0 <==> day in Weekdays
    ensures n != 0 ==> Weekdays[n - 1] == day
  {
    if day == "mon" then 1
    else if day == "tue" then 2
    else if day == "wed" then 3
    else if day == "thu" then 4
    else if day == "fri" then 5
    else if day == "sat" then 6
    else if day == "sun" then 7
    else 0
  }

  // ------------------------------------------------------------ reading rows

  /** A row of the timeslots table: skipped (None) without a slot id or a
      weekday; otherwise its slot id, labels and flags, and an entry whose
      hours go through `parseTimeValue` when both hours are present. */
  function TimeslotRow(row: Record, fmt: string): (r: Option<SlotRow>)
    ensures r.None? <==> Key(Get(row, "slot_id")) == [] || Key(Get(row, "day")) !in Weekdays
    ensures r.Some? ==> r.value.id == Key(Get(row, "slot_id"))
    ensures r.Some? ==> (r.value.entry.Some? <==> Get(row, "open") != [] && Get(row, "close") != [])
  {
    var id := Key(Get(row, "slot_id"));
    var day := DayNumber(Key(Get(row, "day")));
    if id == [] || day == 0 then None
    else
      var open, close := Get(row, "open"), Get(row, "close");
      Some(SlotRow(id, Or(Get(row, "label_it"), id), Or(Get(row, "label_en"), id),
                   IsTruthy(Get(row, "is_kitchen")), IsTruthy(Get(row, "show_in_hero")),
                   IsTruthy(Get(row, "show_in_info")),
                   if open != [] && close != [] then Some(Entry(day, ParseTimeValue(open, fmt), ParseTimeValue(close, fmt)))
                   else None))
  }

  /** A row of the legacy info table, when it is a `time_slot` row with a day
      and a slot id: the id is lower-cased and trimmed but not checked again,
      the flags must be exactly `true`, and the hours are taken as written. */
  function InfoRow(row: Record): Option<SlotRow> {
    var day := Key(Get(row, "day"));
    if Key(Get(row, "type")) == "time_slot" && day != [] && Get(row, "slot_id") != [] then
      var id := Key(Get(row, "slot_id"));
      var n := DayNumber(day);
      if n == 0 then None
      else
        var open, close := Get(row, "slot1_open"), Get(row, "slot1_close");
        Some(SlotRow(id, Or(Get(row, "label_it"), id), Or(Get(row, "label_en"), id),
                     Get(row, "is_kitchen") == "true", Get(row, "show_in_hero") == "true",
                     Get(row, "show_in_info") == "true",
                     if open != [] && close != [] then Some(Entry(n, open, close)) else None))
    else None
  }

  function TimeslotRows(rows: seq<Record>, fmt: string): (r: seq<Option<SlotRow>>)
    ensures |r| == |rows|
    ensures forall i :: 0 <= i < |rows| ==> r[i] == TimeslotRow(rows[i], fmt)
  {
    seq(|rows|, i requires 0 <= i < |rows| => TimeslotRow(rows[i], fmt))
  }

  function InfoRows(rows: seq<Record>): (r: seq<Option<SlotRow>>)
    ensures |r| == |rows|
    ensures forall i :: 0 <= i < |rows| ==> r[i] == InfoRow(rows[i])
  {
    seq(|rows|, i requires 0 <= i < |rows| => InfoRow(rows[i]))
  }

  // ------------------------------------------------------------ the slots map

  /** The position of the slot with this id, if any (`timeSlotsMap.has`). */
  function FindSlot(slots: seq<TimeSlot>, id: string): (r: Option<nat>)
    ensures r.Some? ==> r.value < |slots| && slots[r.value].id == id
    ensures r.None? ==> forall k :: 0 <= k < |slots| ==> slots[k].id != id
  {
    if |slots| == 0 then None
    else if slots[|slots| - 1].id == id then Some(|slots| - 1)
    else FindSlot(slots[..|slots| - 1], id)
  }

  /** The slot a first row creates, with an empty schedule. */
  function Fresh(r: SlotRow): TimeSlot {
    TimeSlot(r.id, r.labelIt, r.labelEn, r.isKitchen, r.showInHero, r.showInInfo, [])
  }

  function Entries(r: SlotRow): seq<Entry> {
    if r.entry.Some? then [r.entry.value] else []
  }

  /** The slots map, in insertion order, after one more accepted row. */
  function AddSlotRow(slots: seq<TimeSlot>, r: SlotRow): seq<TimeSlot> {
    match FindSlot(slots, r.id)
    case None => slots + [Fresh(r).(schedule := Entries(r))]
    case Some(p) => slots[p := slots[p].(schedule := slots[p].schedule + Entries(r))]
  }

  /** The slots map after the rows `rs` (None: a skipped row). */
  function Collect(rs: seq<Option<SlotRow>>): seq<TimeSlot> {
    if |rs| == 0 then []
    else
      var n := |rs| - 1;
      match rs[n]
      case None => Collect(rs[..n])
      case Some(r) => AddSlotRow(Collect(rs[..n]), r)
  }

  // ------------------------------------------------------------ what the map holds

  /** The slot ids of the accepted rows, in row order. */
  function AcceptedIds(rs: seq<Option<SlotRow>>): (ids: seq<string>)
    ensures forall j :: 0 <= j < |rs| && rs[j].Some? ==> rs[j].value.id in ids
  {
    if |rs| == 0 then []
    else
      var n := |rs| - 1;
      var ids := AcceptedIds(rs[..n]);
      assert forall j :: 0 <= j < n ==> rs[..n][j] == rs[j];
      ids + (if rs[n].Some? then [rs[n].value.id] else [])
  }

  /** The entries of the accepted rows of slot `id`, in row order. */
  function ScheduleOf(rs: seq<Option<SlotRow>>, id: string): seq<Entry> {
    if |rs| == 0 then []
    else
      var n := |rs| - 1;
      ScheduleOf(rs[..n], id) + (if rs[n].Some? && rs[n].value.id == id then Entries(rs[n].value) else [])
  }

  /** Row `j` is the first accepted row of slot `id`. */
  ghost predicate FirstOf(rs: seq<Option<SlotRow>>, j: nat, id: string) {
    j < |rs| && rs[j].Some? && rs[j].value.id == id &&
    forall j' :: 0 <= j' < j ==> !(rs[j'].Some? && rs[j'].value.id == id)
  }

  function Ids(slots: seq<TimeSlot>): (ids: seq<string>)
    ensures |ids| == |slots| && forall k :: 0 <= k < |slots| ==> ids[k] == slots[k].id
  {
    seq(|slots|, k requires 0 <= k < |slots| => slots[k].id)
  }

  /** `slot` is the slot of its id as the rows `rs` make it: the labels and
      flags of the first accepted row of that id and the entries of all of
      them. */
  ghost predicate SlotFrom(rs: seq<Option<SlotRow>>, slot: TimeSlot) {
    exists j: nat :: FirstOf(rs, j, slot.id) && slot == Fresh(rs[j].value).(schedule := ScheduleOf(rs, slot.id))
  }

  /** The slots are the distinct accepted ids in first-seen order, each as
      its rows make it. */
  ghost predicate Collected(rs: seq<Option<SlotRow>>, slots: seq<TimeSlot>) {
    Ids(slots) == Dedupe(AcceptedIds(rs)) && forall k :: 0 <= k < |slots| ==> SlotFrom(rs, slots[k])
  }

  lemma AcceptedSnoc(rs: seq<Option<SlotRow>>, x: Option<SlotRow>)
    ensures x.None? ==> AcceptedIds(rs + [x]) == AcceptedIds(rs)
    ensures x.Some? ==> AcceptedIds(rs + [x]) == AcceptedIds(rs) + [x.value.id]
  {
    assert (rs + [x])[..|rs|] == rs;
    if x.None? {
      assert AcceptedIds(rs) + [] == AcceptedIds(rs);
    }
  }

  lemma ScheduleSnoc(rs: seq<Option<SlotRow>>, x: Option<SlotRow>, id: string)
    ensures ScheduleOf(rs + [x], id) == ScheduleOf(rs, id) + (if x.Some? && x.value.id == id then Entries(x.value) else [])
  {
    assert (rs + [x])[..|rs|] == rs;
  }

  lemma {:induction false} ScheduleAbsent(rs: seq<Option<SlotRow>>, id: string)
    requires id !in AcceptedIds(rs)
    ensures ScheduleOf(rs, id) == []
  {
    if |rs| > 0 {
      var n := |rs| - 1;
      assert rs == rs[..n] + [rs[n]];
      AcceptedSnoc(rs[..n], rs[n]);
      ScheduleAbsent(rs[..n], id);
    }
  }

  lemma CollectSnoc(rs: seq<Option<SlotRow>>, x: Option<SlotRow>)
    ensures Collect(rs + [x]) == if x.None? then Collect(rs) else AddSlotRow(Collect(rs), x.value)
  {
    assert (rs + [x])[..|rs|] == rs;
  }

  lemma FirstOfGrow(rs: seq<Option<SlotRow>>, x: Option<SlotRow>, j: nat, id: string)
    requires FirstOf(rs, j, id)
    ensures FirstOf(rs + [x], j, id) && (rs + [x])[j] == rs[j]
  {
    assert forall j' :: 0 <= j' <= j ==> (rs + [x])[j'] == rs[j'];
  }

  /** A row of another slot, or a skipped row, leaves a slot as it was. */
  lemma SlotFromOther(rs: seq<Option<SlotRow>>, x: Option<SlotRow>, slot: TimeSlot)
    requires SlotFrom(rs, slot) && !(x.Some? && x.value.id == slot.id)
    ensures SlotFrom(rs + [x], slot)
  {
    var j: nat :| FirstOf(rs, j, slot.id) && slot == Fresh(rs[j].value).(schedule := ScheduleOf(rs, slot.id));
    FirstOfGrow(rs, x, j, slot.id);
    ScheduleSnoc(rs, x, slot.id);
  }

  /** A later row of the slot's id appends its entry. */
  lemma SlotFromAppend(rs: seq<Option<SlotRow>>, r: SlotRow, slot: TimeSlot)
    requires SlotFrom(rs, slot) && r.id == slot.id
    ensures SlotFrom(rs + [Some(r)], slot.(schedule := slot.schedule + Entries(r)))
  {
    var j: nat :| FirstOf(rs, j, slot.id) && slot == Fresh(rs[j].value).(schedule := ScheduleOf(rs, slot.id));
    FirstOfGrow(rs, Some(r), j, slot.id);
    ScheduleSnoc(rs, Some(r), slot.id);
  }

  /** The first row of an id makes its slot. */
  lemma SlotFromNew(rs: seq<Option<SlotRow>>, r: SlotRow)
    requires r.id !in AcceptedIds(rs)
    ensures SlotFrom(rs + [Some(r)], Fresh(r).(schedule := Entries(r)))
  {
    var rs' := rs + [Some(r)];
    ScheduleAbsent(rs, r.id);
    ScheduleSnoc(rs, Some(r), r.id);
    forall j' | 0 <= j' < |rs| ensures !(rs'[j'].Some? && rs'[j'].value.id == r.id) {
      assert rs'[j'] == rs[j'];
    }
    assert FirstOf(rs', |rs|, r.id);
  }

  /** A skipped row changes nothing. */
  lemma CollectedSkip(rs: seq<Option<SlotRow>>, slots: seq<TimeSlot>)
    requires Collected(rs, slots)
    ensures Collected(rs + [None], slots)
  {
    AcceptedSnoc(rs, None);
    forall k | 0 <= k < |slots| ensures SlotFrom(rs + [None], slots[k]) {
      SlotFromOther(rs, None, slots[k]);
    }
  }

  lemma IdsNew(rs: seq<Option<SlotRow>>, slots: seq<TimeSlot>, r: SlotRow)
    requires Ids(slots) == Dedupe(AcceptedIds(rs)) && FindSlot(slots, r.id).None?
    ensures Ids(AddSlotRow(slots, r)) == Dedupe(AcceptedIds(rs + [Some(r)]))
  {
    var t := Fresh(r).(schedule := Entries(r));
    assert AddSlotRow(slots, r) == slots + [t];
    IdsSnoc(slots, t);
    AcceptedSnoc(rs, Some(r));
    assert r.id !in Dedupe(AcceptedIds(rs)) by {
      IdsAbsent(slots, r.id);
    }
    DedupeSnoc(AcceptedIds(rs), r.id);
  }

  lemma IdsSnoc(slots: seq<TimeSlot>, t: TimeSlot)
    ensures Ids(slots + [t]) == Ids(slots) + [t.id]
  {
  }

  lemma IdsAbsent(slots: seq<TimeSlot>, id: string)
    requires FindSlot(slots, id).None?
    ensures id !in Ids(slots)
  {
  }

  lemma IdsUpdate(slots: seq<TimeSlot>, p: nat, t: TimeSlot)
    requires p < |slots| && t.id == slots[p].id
    ensures Ids(slots[p := t]) == Ids(slots)
  {
  }

  lemma IdsOld(rs: seq<Option<SlotRow>>, slots: seq<TimeSlot>, r: SlotRow, p: nat)
    requires Ids(slots) == Dedupe(AcceptedIds(rs)) && FindSlot(slots, r.id) == Some(p)
    ensures Ids(AddSlotRow(slots, r)) == Dedupe(AcceptedIds(rs + [Some(r)]))
  {
    var t := slots[p].(schedule := slots[p].schedule + Entries(r));
    assert AddSlotRow(slots, r) == slots[p := t];
    IdsUpdate(slots, p, t);
    AcceptedSnoc(rs, Some(r));
    assert r.id in Dedupe(AcceptedIds(rs)) by {
      assert r.id == Ids(slots)[p];
    }
    DedupeSnoc(AcceptedIds(rs), r.id);
  }

  /** The first row of a new id creates its slot at the end. */
  lemma CollectedNew(rs: seq<Option<SlotRow>>, slots: seq<TimeSlot>, r: SlotRow)
    requires Collected(rs, slots) && FindSlot(slots, r.id).None?
    ensures Collected(rs + [Some(r)], AddSlotRow(slots, r))
  {
    var slots' := AddSlotRow(slots, r);
    assert slots' == slots + [Fresh(r).(schedule := Entries(r))];
    IdsNew(rs, slots, r);
    assert r.id !in Ids(slots);
    assert r.id !in AcceptedIds(rs) by {
      assert r.id !in Dedupe(AcceptedIds(rs));
    }
    forall k | 0 <= k < |slots'| ensures SlotFrom(rs + [Some(r)], slots'[k]) {
      if k < |slots| {
        assert slots'[k] == slots[k];
        SlotFromOther(rs, Some(r), slots[k]);
      } else {
        SlotFromNew(rs, r);
      }
    }
  }

  /** A later row of a known id appends its entry to that slot only. */
  lemma CollectedOld(rs: seq<Option<SlotRow>>, slots: seq<TimeSlot>, r: SlotRow, p: nat)
    requires Collected(rs, slots) && FindSlot(slots, r.id) == Some(p)
    ensures Collected(rs + [Some(r)], AddSlotRow(slots, r))
  {
    var slots' := AddSlotRow(slots, r);
    assert slots' == slots[p := slots[p].(schedule := slots[p].schedule + Entries(r))];
    IdsOld(rs, slots, r, p);
    forall k | 0 <= k < |slots'| ensures SlotFrom(rs + [Some(r)], slots'[k]) {
      if k == p {
        SlotFromAppend(rs, r, slots[p]);
      } else {
        assert slots[k].id != r.id by {
          assert Ids(slots)[k] != Ids(slots)[p];
        }
        SlotFromOther(rs, Some(r), slots[k]);
      }
    }
  }

  /** Grouping the rows into slots: each slot is created by the first accepted
      row of its id, in that order, keeps that row's labels and flags, and
      collects the entries of all rows of its id in row order. */
  lemma {:induction false} CollectSpec(rs: seq<Option<SlotRow>>)
    ensures Collected(rs, Collect(rs))
  {
    if |rs| == 0 {
      assert Ids([]) == [];
    } else {
      var n := |rs| - 1;
      CollectSpec(rs[..n]);
      assert rs == rs[..n] + [rs[n]];
      CollectSnoc(rs[..n], rs[n]);
      var slots := Collect(rs[..n]);
      match rs[n]
      case None => CollectedSkip(rs[..n], slots);
      case Some(r) =>
        match FindSlot(slots, r.id)
        case None => CollectedNew(rs[..n], slots, r);
        case Some(p) => CollectedOld(rs[..n], slots, r, p);
    }
  }

  // ------------------------------------------------------------ publishing

  predicate InHero(s: TimeSlot) { s.showInHero }
  predicate InInfo(s: TimeSlot) { s.showInInfo }

  function ForInfo(slots: seq<TimeSlot>): (r: seq<InfoSlot>)
    ensures |r| == |slots|
    ensures forall k :: 0 <= k < |slots| ==> r[k] == InfoSlot(slots[k], Collapse(slots[k].schedule))
  {
    seq(|slots|, k requires 0 <= k < |slots| => InfoSlot(slots[k], Collapse(slots[k].schedule)))
  }

  /** The three lists returned: all slots, those shown in the hero, and those
      shown in the info section with their collapsed schedules. */
  function Publish(slots: seq<TimeSlot>): TimeslotsData {
    TimeslotsData(slots, Filter(slots, InHero), ForInfo(Filter(slots, InInfo)))
  }

  /** The whole of `processTimeslotsData`; `numberFormat` is the configured
      `csvNumberFormat` ('' when not set). */
  function ProcessTimeslots(rows: seq<Record>, numberFormat: string): TimeslotsData {
    Publish(Collect(TimeslotRows(rows, Or(numberFormat, "us"))))
  }

  /** The hero and info lists keep exactly the slots with their flag set, in
      slot order, and each info slot carries its own collapsed schedule. */
  lemma PublishLists(slots: seq<TimeSlot>, s: TimeSlot)
    ensures s in Publish(slots).timeSlotsForHero <==> s in slots && s.showInHero
    ensures (exists k :: 0 <= k < |Publish(slots).timeSlotsForInfo| && Publish(slots).timeSlotsForInfo[k].slot == s)
            <==> s in slots && s.showInInfo
    ensures forall k :: 0 <= k < |Publish(slots).timeSlotsForInfo| ==>
              Publish(slots).timeSlotsForInfo[k].collapsedSchedule == Collapse(Publish(slots).timeSlotsForInfo[k].slot.schedule)
  {
    FilterMembers(slots, InHero, s);
    FilterMembers(slots, InInfo, s);
    var f := Filter(slots, InInfo);
    if s in f {
      var k :| 0 <= k < |f| && f[k] == s;
      assert ForInfo(f)[k].slot == s;
    }
  }

  /** Rows without a slot id or a weekday are skipped: appending one changes
      no list. */
  lemma SkippedRow(rows: seq<Record>, row: Record, numberFormat: string)
    requires Key(Get(row, "slot_id")) == [] || Key(Get(row, "day")) !in Weekdays
    ensures ProcessTimeslots(rows + [row], numberFormat) == ProcessTimeslots(rows, numberFormat)
  {
    var fmt := Or(numberFormat, "us");
    assert TimeslotRows(rows + [row], fmt) == TimeslotRows(rows, fmt) + [None];
    CollectSnoc(TimeslotRows(rows, fmt), None);
  }

  // ------------------------------------------------------------ the loops

  /** The slots map after the first `n` rows. */
  function SlotsPrefix(rs: seq<Option<SlotRow>>, n: nat): seq<TimeSlot>
    requires n <= |rs|
  {
    Collect(rs[..n])
  }

  /** `set` of a new slot, `get`, and the `push` of the row's entry. */
  method PushSlotRow(slots: seq<TimeSlot>, r: SlotRow) returns (next: seq<TimeSlot>)
    ensures next == AddSlotRow(slots, r)
  {
    var p := FindSlot(slots, r.id);
    next := slots;
    if p.None? {
      next := next + [Fresh(r)];
      p := Some(|slots|);
    }
    if r.entry.Some? {
      var slot := next[p.value];
      next := next[p.value := slot.(schedule := slot.schedule + [r.entry.value])];
    }
    if FindSlot(slots, r.id).None? {
      if r.entry.Some? {
        assert Fresh(r).schedule + [r.entry.value] == [r.entry.value];
        assert next == slots + [Fresh(r).(schedule := [r.entry.value])];
      } else {
        assert next == slots + [Fresh(r).(schedule := [])];
      }
    } else if r.entry.None? {
      assert slots[p.value].schedule + [] == slots[p.value].schedule;
      assert slots[p.value := slots[p.value]] == slots;
    }
  }

  method SlotStep(rows: seq<Record>, fmt: string, i: nat, slots: seq<TimeSlot>) returns (next: seq<TimeSlot>)
    requires i < |rows| && slots == SlotsPrefix(TimeslotRows(rows, fmt), i)
    ensures next == SlotsPrefix(TimeslotRows(rows, fmt), i + 1)
  {
    ghost var rs := TimeslotRows(rows, fmt);
    PrefixSnoc(rs, i);
    CollectSnoc(rs[..i], rs[i]);
    var r := TimeslotRow(rows[i], fmt);
    assert r == rs[i];
    next := slots;
    if r.Some? {
      next := PushSlotRow(slots, r.value);
    }
  }

  /** `processTimeslotsData`. */
  method ProcessTimeslotsData(rows: seq<Record>, numberFormat: string) returns (result: TimeslotsData)
    ensures result == ProcessTimeslots(rows, numberFormat)
  {
    var fmt := Or(numberFormat, "us");
    var slots := [];
    var i := 0;
    while i < |rows|
      invariant 0 <= i <= |rows|
      invariant slots == SlotsPrefix(TimeslotRows(rows, fmt), i)
    {
      slots := SlotStep(rows, fmt, i, slots);
      i := i + 1;
    }
    assert TimeslotRows(rows, fmt)[..|rows|] == TimeslotRows(rows, fmt);
    result := Publish(slots);
  }

  // ------------------------------------------------------------ page texts

  datatype Header = Header(titleIt: string, titleEn: string, textIt: string, textEn: string, style: string)

  datatype ContentItem =
    | TextItem(labelIt: string, labelEn: string, textIt: string, textEn: string, style: string)
    | CtaItem(labelIt: string, labelEn: string, link: string, style: string)

  datatype Content = Content(menuHeaderKitchen: Option<Header>, menuHeaderBar: Option<Header>,
                             contentItems: seq<ContentItem>)

  function RowType(row: Record): string {
    Key(Get(row, "type"))
  }

  /** A menu header row; the style defaults to `card`. */
  function HeaderOf(row: Record): Header {
    Header(Get(row, "label_it"), Get(row, "label_en"), Get(row, "text_it"), Get(row, "text_en"),
           Or(Get(row, "style"), "card"))
  }

  /** The content item of a `text` row (style `plain` by default) or a `cta`
      row (style `secondary` by default). */
  function ItemOf(row: Record): (r: Option<ContentItem>)
    ensures r.Some? <==> RowType(row) in {"text", "cta"}
  {
    var t := RowType(row);
    if t == "text" then
      Some(TextItem(Get(row, "label_it"), Get(row, "label_en"), Get(row, "text_it"), Get(row, "text_en"),
                    Or(Get(row, "style"), "plain")))
    else if t == "cta" then
      Some(CtaItem(Get(row, "label_it"), Get(row, "label_en"), Get(row, "link"), Or(Get(row, "style"), "secondary")))
    else None
  }

  function TypeIs(t: string): Record -> bool {
    row => RowType(row) == t
  }

  /** The header of the last row of type `t`: each such row overwrites the one before. */
  function LastHeader(rows: seq<Record>, t: string): (r: Option<Header>)
    ensures r.None? <==> forall j :: 0 <= j < |rows| ==> RowType(rows[j]) != t
    ensures r.Some? ==> exists j :: 0 <= j < |rows| && RowType(rows[j]) == t && r.value == HeaderOf(rows[j])
                          && forall j' :: j < j' < |rows| ==> RowType(rows[j']) != t
  {
    match LastMatch(rows, TypeIs(t))
    case None => None
    case Some(j) => Some(HeaderOf(rows[j]))
  }

  /** The content items of the `text` and `cta` rows, in row order. */
  function ContentItems(rows: seq<Record>): seq<ContentItem> {
    FilterMap(rows, ItemOf)
  }

  /** What `processContentData` returns for `rows`. */
  function ContentOf(rows: seq<Record>): Content {
    Content(LastHeader(rows, "menu_header_kitchen"), LastHeader(rows, "menu_header_bar"), ContentItems(rows))
  }

  lemma LastHeaderSnoc(rows: seq<Record>, row: Record, t: string)
    ensures LastHeader(rows + [row], t) == if RowType(row) == t then Some(HeaderOf(row)) else LastHeader(rows, t)
  {
    LastMatchSnoc(rows, row, TypeIs(t));
  }

  /** One row of the content loop. */
  method ContentStep(rows: seq<Record>, i: nat, content: Content) returns (next: Content)
    requires i < |rows| && content == ContentOf(rows[..i])
    ensures next == ContentOf(rows[..i + 1])
  {
    PrefixSnoc(rows, i);
    LastHeaderSnoc(rows[..i], rows[i], "menu_header_kitchen");
    LastHeaderSnoc(rows[..i], rows[i], "menu_header_bar");
    FilterMapSnoc(rows[..i], rows[i], ItemOf);
    var row := rows[i];
    var t := RowType(row);
    next := content;
    if t == "menu_header_kitchen" {
      next := next.(menuHeaderKitchen := Some(HeaderOf(row)));
    } else if t == "menu_header_bar" {
      next := next.(menuHeaderBar := Some(HeaderOf(row)));
    } else if t == "text" || t == "cta" {
      next := next.(contentItems := next.contentItems + [ItemOf(row).value]);
    }
  }

  /** `processContentData`. */
  method ProcessContentData(rows: seq<Record>) returns (result: Content)
    ensures result == ContentOf(rows)
  {
    result := Content(None, None, []);
    var i := 0;
    while i < |rows|
      invariant 0 <= i <= |rows|
      invariant result == ContentOf(rows[..i])
    {
      result := ContentStep(rows, i, result);
      i := i + 1;
    }
    assert rows[..|rows|] == rows;
  }

  // ------------------------------------------------------------ legacy info table

  datatype InfoData = InfoData(slots: TimeslotsData, content: Content)

  /** The whole of `processInfoData`: the time-slot rows give the slots, the
      other rows the headers and content items. */
  function ProcessInfo(rows: seq<Record>): InfoData {
    InfoData(Publish(Collect(InfoRows(rows))), ContentOf(rows))
  }

  /** One row of the legacy loop: a slot row or a content row. */
  method InfoStep(rows: seq<Record>, i: nat, slots: seq<TimeSlot>, content: Content)
    returns (slots': seq<TimeSlot>, content': Content)
    requires i < |rows| && slots == SlotsPrefix(InfoRows(rows), i) && content == ContentOf(rows[..i])
    ensures slots' == SlotsPrefix(InfoRows(rows), i + 1) && content' == ContentOf(rows[..i + 1])
  {
    ghost var rs := InfoRows(rows);
    PrefixSnoc(rs, i);
    CollectSnoc(rs[..i], rs[i]);
    var r := InfoRow(rows[i]);
    assert r == rs[i];
    slots' := slots;
    if r.Some? {
      slots' := PushSlotRow(slots, r.value);
    }
    content' := ContentStep(rows, i, content);
  }

  /** `processInfoData`. */
  method ProcessInfoData(rows: seq<Record>) returns (result: InfoData)
    ensures result == ProcessInfo(rows)
  {
    var slots := [];
    var content := Content(None, None, []);
    var i := 0;
    while i < |rows|
      invariant 0 <= i <= |rows|
      invariant slots == SlotsPrefix(InfoRows(rows), i) && content == ContentOf(rows[..i])
    {
      slots, content := InfoStep(rows, i, slots, content);
      i := i + 1;
    }
    assert InfoRows(rows)[..|rows|] == InfoRows(rows);
    assert rows[..|rows|] == rows;
    result := InfoData(Publish(slots), content);
  }

  // ------------------------------------------------------------ collapsing days

  /** A run of consecutive days being merged, as the loop keeps it. */
  datatype Run = Run(key: string, startDay: nat, endDay: nat, open: string, close: string)

  const DayNamesIt: seq<string> := ["", "Lunedì", "Martedì", "Mercoledì", "Giovedì", "Venerdì", "Sabato", "Domenica"]
  const DayNamesEn: seq<string> := ["", "Monday", "Tuesday", "Wednesday", "Thursday", "Friday", "Saturday", "Sunday"]

  /** `names[d]` interpolated into a template literal. */
  function DayName(names: seq<string>, d: nat): string {
    if d < |names| then names[d] else "undefined"
  }

  /** The comparison key `${open}-${close}`. */
  function HoursKey(open: string, close: string): string {
    open + "-" + close
  }

  function EntryDay(e: Entry): real {
    e.day as real
  }

  /** The schedule sorted by day, stably. */
  function ByDay(schedule: seq<Entry>): seq<Entry> {
    SortBy(schedule, EntryDay)
  }

  /** The run an entry starts. */
  function Start(e: Entry): Run {
    Run(HoursKey(e.open, e.close), e.day, e.day, e.open, e.close)
  }

  /** The entry a run started from. */
  function FirstEntry(run: Run): Entry {
    Entry(run.startDay, run.open, run.close)
  }

  /** How two entries' hours are compared: as written, by the key text; or by
      the opening and closing times themselves. */
  datatype Compare = ByKey | ByHours

  /** Whether entry `e` has the hours of `run`. */
  predicate Same(run: Run, e: Entry, cmp: Compare) {
    match cmp
    case ByKey => run.key == HoursKey(e.open, e.close)
    case ByHours => run.open == e.open && run.close == e.close
  }

  /** `current.key === key && current.endDay === sched.day - 1`, with the hours
      compared by `cmp`. */
  predicate Extends(run: Run, e: Entry, cmp: Compare) {
    Same(run, e, cmp) && run.endDay + 1 == e.day
  }

  /** The runs the loop builds over `s`, comparing hours by `cmp`. */
  function RunsBy(s: seq<Entry>, cmp: Compare): (runs: seq<Run>)
    ensures |runs| <= |s| && (|runs| == 0 <==> |s| == 0)
  {
    if |s| == 0 then []
    else
      var rs := RunsBy(s[..|s| - 1], cmp);
      var e := s[|s| - 1];
      if |rs| > 0 && Extends(rs[|rs| - 1], e, cmp) then rs[..|rs| - 1] + [rs[|rs| - 1].(endDay := e.day)]
      else rs + [Start(e)]
  }

  /** The line a run becomes: one day name or `start - end`, and `open - close`. */
  function Format(run: Run): DayRange {
    if run.startDay == run.endDay then
      DayRange(DayName(DayNamesIt, run.startDay), DayName(DayNamesEn, run.startDay), run.open + " - " + run.close)
    else
      DayRange(DayName(DayNamesIt, run.startDay) + " - " + DayName(DayNamesIt, run.endDay),
               DayName(DayNamesEn, run.startDay) + " - " + DayName(DayNamesEn, run.endDay),
               run.open + " - " + run.close)
  }

  function FormatAll(runs: seq<Run>): (r: seq<DayRange>)
    ensures |r| == |runs| && forall k :: 0 <= k < |runs| ==> r[k] == Format(runs[k])
  {
    seq(|runs|, k requires 0 <= k < |runs| => Format(runs[k]))
  }

  /** `collapseTimeSlotDays` as written: runs are merged on equal keys. */
  function CollapseAsWritten(schedule: seq<Entry>): seq<DayRange> {
    FormatAll(RunsBy(ByDay(schedule), ByKey))
  }

  /** `collapseTimeSlotDays` comparing the hours themselves. */
  function Collapse(schedule: seq<Entry>): seq<DayRange> {
    FormatAll(RunsBy(ByDay(schedule), ByHours))
  }

  /** The entries a run stands for: one per day, all with the run's hours. */
  function Expand(run: Run): (r: seq<Entry>)
    ensures run.startDay <= run.endDay ==> |r| == run.endDay - run.startDay + 1
  {
    if run.endDay < run.startDay then []
    else seq(run.endDay - run.startDay + 1, j requires 0 <= j <= run.endDay - run.startDay =>
               Entry(run.startDay + j, run.open, run.close))
  }

  function ExpandAll(runs: seq<Run>): seq<Entry> {
    if |runs| == 0 then [] else ExpandAll(runs[..|runs| - 1]) + Expand(runs[|runs| - 1])
  }

  lemma ExpandGrow(run: Run, d: nat)
    requires run.startDay <= run.endDay && d == run.endDay + 1
    ensures Expand(run.(endDay := d)) == Expand(run) + [Entry(d, run.open, run.close)]
  {
  }

  lemma ExpandAllSnoc(runs: seq<Run>, run: Run)
    ensures ExpandAll(runs + [run]) == ExpandAll(runs) + Expand(run)
  {
    assert (runs + [run])[..|runs|] == runs;
  }

  ghost predicate Ordered(runs: seq<Run>) {
    forall k :: 0 <= k < |runs| ==> runs[k].startDay <= runs[k].endDay
  }

  /** Every run spans at least its first day. */
  lemma {:induction false} RunsOrdered(s: seq<Entry>, cmp: Compare)
    ensures Ordered(RunsBy(s, cmp))
  {
    if |s| > 0 {
      RunsOrdered(s[..|s| - 1], cmp);
    }
  }

  lemma ExpandExtend(init: seq<Run>, last: Run, e: Entry)
    requires last.startDay <= last.endDay && Extends(last, e, ByHours)
    ensures ExpandAll(init + [last.(endDay := e.day)]) == ExpandAll(init + [last]) + [e]
  {
    ExpandAllSnoc(init, last);
    ExpandAllSnoc(init, last.(endDay := e.day));
    ExpandGrow(last, e.day);
    assert Entry(e.day, last.open, last.close) == e;
  }

  lemma ExpandStart(rs: seq<Run>, e: Entry)
    ensures ExpandAll(rs + [Start(e)]) == ExpandAll(rs) + [e]
  {
    ExpandAllSnoc(rs, Start(e));
    assert Expand(Start(e)) == [e];
  }

  /** Comparing the hours themselves, expanding the runs gives back the
      schedule they were built from, entry for entry. */
  lemma {:induction false} RunsExpand(s: seq<Entry>)
    ensures ExpandAll(RunsBy(s, ByHours)) == s
  {
    if |s| > 0 {
      var n := |s| - 1;
      var rs := RunsBy(s[..n], ByHours);
      var e := s[n];
      RunsExpand(s[..n]);
      assert s == s[..n] + [e];
      if |rs| > 0 && Extends(rs[|rs| - 1], e, ByHours) {
        var m := |rs| - 1;
        RunsOrdered(s[..n], ByHours);
        assert rs == rs[..m] + [rs[m]];
        ExpandExtend(rs[..m], rs[m], e);
      } else {
        ExpandStart(rs, e);
      }
    }
  }

  /** No two neighbouring runs could have been merged: each run after the
      first starts with an entry that does not extend its predecessor. */
  lemma {:induction false} RunsMaximal(s: seq<Entry>, cmp: Compare)
    ensures forall k :: 0 <= k < |RunsBy(s, cmp)| - 1 ==>
              !Extends(RunsBy(s, cmp)[k], FirstEntry(RunsBy(s, cmp)[k + 1]), cmp)
  {
    if |s| > 0 {
      var n := |s| - 1;
      RunsMaximal(s[..n], cmp);
    }
  }

  /** The collapsed schedule: empty exactly for an empty schedule, one line
      per run of the day-sorted schedule, where the runs give back that
      schedule entry for entry and no two neighbouring runs could merge. */
  lemma CollapseSpec(schedule: seq<Entry>)
    ensures |Collapse(schedule)| == 0 <==> |schedule| == 0
    ensures SortedBy(ByDay(schedule), EntryDay) && multiset(ByDay(schedule)) == multiset(schedule)
    ensures ExpandAll(RunsBy(ByDay(schedule), ByHours)) == ByDay(schedule)
    ensures Collapse(schedule) == FormatAll(RunsBy(ByDay(schedule), ByHours))
    ensures forall k :: 0 <= k < |RunsBy(ByDay(schedule), ByHours)| - 1 ==>
              !Extends(RunsBy(ByDay(schedule), ByHours)[k], FirstEntry(RunsBy(ByDay(schedule), ByHours)[k + 1]), ByHours)
  {
    SortBySorted(schedule, EntryDay);
    SortByPermutes(schedule, EntryDay);
    RunsExpand(ByDay(schedule));
    RunsMaximal(ByDay(schedule), ByHours);
  }

  /** A one-day range names the day once; a longer one names both ends; the
      times are `open - close`. */
  lemma FormatShape(run: Run)
    ensures run.startDay == run.endDay ==> Format(run).daysEn == DayName(DayNamesEn, run.startDay)
    ensures run.startDay != run.endDay ==>
              Format(run).daysEn == DayName(DayNamesEn, run.startDay) + " - " + DayName(DayNamesEn, run.endDay)
    ensures 1 <= run.startDay <= 7 ==> Format(run).daysEn[..|DayNamesEn[run.startDay]|] == DayNamesEn[run.startDay]
  {
  }

  // ---- the key comparison as written

  /** Joining with '-' loses no information while the opening time has no '-'. */
  lemma HoursKeyInjective(a: string, b: string, c: string, d: string)
    requires '-' !in a && '-' !in c && HoursKey(a, b) == HoursKey(c, d)
    ensures a == c && b == d
  {
    var k1, k2 := HoursKey(a, b), HoursKey(c, d);
    assert k1[|a|] == '-' && k2[|c|] == '-';
    assert forall i :: 0 <= i < |a| ==> k1[i] == a[i];
    assert forall i :: 0 <= i < |c| ==> k2[i] == c[i];
    assert |a| == |c|;
    assert a == k1[..|a|] && c == k2[..|c|];
    assert b == k1[|a| + 1..] && d == k2[|c| + 1..];
  }

  ghost predicate Keyed(runs: seq<Run>) {
    forall k :: 0 <= k < |runs| ==> runs[k].key == HoursKey(runs[k].open, runs[k].close) && '-' !in runs[k].open
  }

  /** Every run keeps the key of the entry that started it. */
  lemma {:induction false} RunsKeyed(s: seq<Entry>, cmp: Compare)
    requires forall i :: 0 <= i < |s| ==> '-' !in s[i].open
    ensures Keyed(RunsBy(s, cmp))
  {
    if |s| > 0 {
      var n := |s| - 1;
      RunsKeyed(s[..n], cmp);
      assert '-' !in s[n].open;
    }
  }

  /** While no opening time holds a '-', both comparisons build the same runs. */
  lemma {:induction false} RunsAgree(s: seq<Entry>)
    requires forall i :: 0 <= i < |s| ==> '-' !in s[i].open
    ensures RunsBy(s, ByKey) == RunsBy(s, ByHours)
  {
    if |s| > 0 {
      RunsAgree(s[..|s| - 1]);
      RunsAgreeStep(s);
    }
  }

  /** The last entry extends the last run under one comparison exactly when
      it does under the other. */
  lemma {:induction false} RunsAgreeStep(s: seq<Entry>)
    requires |s| > 0 && forall i :: 0 <= i < |s| ==> '-' !in s[i].open
    requires RunsBy(s[..|s| - 1], ByKey) == RunsBy(s[..|s| - 1], ByHours)
    ensures RunsBy(s, ByKey) == RunsBy(s, ByHours)
  {
    var n := |s| - 1;
    RunsKeyed(s[..n], ByHours);
    var rs := RunsBy(s[..n], ByHours);
    var e := s[n];
    if |rs| > 0 {
      var last := rs[|rs| - 1];
      if Same(last, e, ByKey) {
        HoursKeyInjective(last.open, last.close, e.open, e.close);
      }
      assert Same(last, e, ByKey) <==> Same(last, e, ByHours);
    }
  }

  /** Where no opening time holds a '-', the collapse as written and the
      corrected one agree. */
  lemma CollapseAgree(schedule: seq<Entry>)
    requires forall i :: 0 <= i < |schedule| ==> '-' !in schedule[i].open
    ensures CollapseAsWritten(schedule) == Collapse(schedule)
  {
    var sorted := ByDay(schedule);
    forall i | 0 <= i < |sorted| ensures '-' !in sorted[i].open {
      SortByMembers(schedule, EntryDay);
      assert sorted[i] in sorted;
    }
    RunsAgree(sorted);
  }

  /** Monday 10:00-11:00 to 12:00 and Tuesday 10:00 to 11:00-12:00 share the
      key `10:00-11:00-12:00`: as written, they merge into one Monday–Tuesday
      line showing Monday's hours, and the merged run no longer stands for
      Tuesday's entry. */
  lemma CollapseKeyCollision()
    ensures var s := [Entry(1, "10:00-11:00", "12:00"), Entry(2, "10:00", "11:00-12:00")];
      CollapseAsWritten(s) == [DayRange("Lunedì - Martedì", "Monday - Tuesday", "10:00-11:00 - 12:00")]
      && ExpandAll(RunsBy(ByDay(s), ByKey)) != ByDay(s)
      && |Collapse(s)| == 2
  {
    var s := [Entry(1, "10:00-11:00", "12:00"), Entry(2, "10:00", "11:00-12:00")];
    assert SortedBy(s, EntryDay);
    SortByIdentity(s, EntryDay);
    var r0 := Start(s[0]);
    MergedRuns(s, r0);
    MergedShown(r0.(endDay := 2));
  }

  lemma MergedShown(merged: Run)
    requires merged == Run("10:00-11:00-12:00", 1, 2, "10:00-11:00", "12:00")
    ensures FormatAll([merged]) == [DayRange("Lunedì - Martedì", "Monday - Tuesday", "10:00-11:00 - 12:00")]
    ensures ExpandAll([merged]) != [Entry(1, "10:00-11:00", "12:00"), Entry(2, "10:00", "11:00-12:00")]
  {
    assert DayName(DayNamesIt, 1) == "Lunedì" && DayName(DayNamesIt, 2) == "Martedì";
    assert DayName(DayNamesEn, 1) == "Monday" && DayName(DayNamesEn, 2) == "Tuesday";
    assert Format(merged) == DayRange("Lunedì - Martedì", "Monday - Tuesday", "10:00-11:00 - 12:00");
    assert Expand(merged)[1].open != "10:00";
    assert ExpandAll([merged]) == Expand(merged) by {
      assert [merged][..0] == [];
    }
  }

  lemma MergedRuns(s: seq<Entry>, r0: Run)
    requires s == [Entry(1, "10:00-11:00", "12:00"), Entry(2, "10:00", "11:00-12:00")] && r0 == Start(s[0])
    ensures RunsBy(s, ByKey) == [r0.(endDay := 2)]
    ensures RunsBy(s, ByHours) == [r0, Start(s[1])]
  {
    assert HoursKey(s[0].open, s[0].close) == "10:00-11:00-12:00" == HoursKey(s[1].open, s[1].close);
    assert s[0].open != s[1].open;
    PairByKey(s[0], s[1]);
    PairByHours(s[0], s[1]);
    assert s == [s[0], s[1]];
  }

  /** Two consecutive days whose keys agree make one run as written. */
  lemma PairByKey(a: Entry, b: Entry)
    requires a.day + 1 == b.day && HoursKey(a.open, a.close) == HoursKey(b.open, b.close)
    ensures RunsBy([a, b], ByKey) == [Start(a).(endDay := b.day)]
  {
    assert [a, b][..1] == [a];
  }

  /** Two entries with different opening times make two runs. */
  lemma PairByHours(a: Entry, b: Entry)
    requires a.open != b.open
    ensures RunsBy([a, b], ByHours) == [Start(a), Start(b)]
  {
    assert [a, b][..1] == [a];
  }

  // ---- the loop

  /** The runs the loop holds: those pushed, then the current one. */
  function Pending(collapsed: seq<Run>, current: Option<Run>): seq<Run> {
    collapsed + (if current.Some? then [current.value] else [])
  }

  /** The loop's state after the entries `prefix`: a current run once there
      has been an entry, and the runs of `prefix` held. */
  ghost predicate Holds(collapsed: seq<Run>, current: Option<Run>, prefix: seq<Entry>) {
    (current.None? <==> |prefix| == 0) && Pending(collapsed, current) == RunsBy(prefix, ByHours)
  }

  /** One entry of the collapsing loop: extend the current run or push it and
      start another. */
  method Advance(collapsed: seq<Run>, current: Option<Run>, e: Entry, ghost prefix: seq<Entry>)
    returns (collapsed': seq<Run>, current': Option<Run>)
    requires Holds(collapsed, current, prefix)
    ensures Holds(collapsed', current', prefix + [e])
  {
    assert (prefix + [e])[..|prefix|] == prefix;
    if current.Some? && Same(current.value, e, ByHours) && current.value.endDay + 1 == e.day {
      collapsed', current' := collapsed, Some(current.value.(endDay := e.day));
      assert RunsBy(prefix, ByHours)[..|collapsed|] == collapsed;
    } else {
      collapsed' := collapsed + (if current.Some? then [current.value] else []);
      current' := Some(Start(e));
    }
  }

  /** The collapsing loop over the sorted schedule. */
  method CollapseLoop(sorted: seq<Entry>) returns (runs: seq<Run>)
    ensures runs == RunsBy(sorted, ByHours)
  {
    var collapsed: seq<Run> := [];
    var current: Option<Run> := None;
    var i := 0;
    while i < |sorted|
      invariant 0 <= i <= |sorted|
      invariant Holds(collapsed, current, sorted[..i])
    {
      PrefixSnoc(sorted, i);
      collapsed, current := Advance(collapsed, current, sorted[i], sorted[..i]);
      i := i + 1;
    }
    assert sorted[..|sorted|] == sorted;
    runs := Pending(collapsed, current);
  }

  /** `collapseTimeSlotDays`, comparing the hours themselves. */
  method CollapseTimeSlotDays(schedule: seq<Entry>) returns (ranges: seq<DayRange>)
    ensures ranges == Collapse(schedule)
  {
    if |schedule| == 0 {
      return [];
    }
    var sorted := ByDay(schedule);
    var runs := CollapseLoop(sorted);
    ranges := FormatAll(runs);
  }
}
