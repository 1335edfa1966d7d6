/** The computing parts of js/render.js: the diet and allergen filter applied
    to the menu before it is drawn (`applyFiltersToData`), the open/upcoming
    status of today's opening hours shown in the hero (`getUpcomingSlots`
    with `parseTimeToMinutes`), and the "in N minutes / in N hours" text
    (`formatDuration`). The filters, the current language and the clock are
    parameters. */
module Render {
  import opened Collections
  import opened Text
  import opened Values
  import opened Utils
  import opened Menu
  import opened Timeslots

  // ------------------------------------------------------------ filters

  /** `state.filters`: the chosen diet (`vegan`, `vegetarian` or anything
      else for no diet) and the allergen keys to exclude. */
  datatype Filters = Filters(diet: string, excludeAllergens: seq<string>)

  /** The `tipo` spellings the diet filter accepts as vegan and vegetarian:
      the module code compares with the English words, the legacy app.js
      with the Italian ones. */
  datatype DietTokens = DietTokens(vegan: string, vegetarian: string)

  /** The spellings js/render.js compares with. */
  const Tokens: DietTokens := DietTokens("vegan", "vegetarian")

  /** `keys.some(key => exclude.includes(key))`. */
  predicate HasExcluded(keys: seq<string>, exclude: seq<string>) {
    exists k :: k in keys && k in exclude
  }

  /** The item test of the filter: the diet rules, then the allergen
      exclusion. */
  predicate Admits(tipo: string, keys: seq<string>, f: Filters, tokens: DietTokens) {
    !(f.diet == "vegan" && tipo != tokens.vegan)
    && !(f.diet == "vegetarian" && tipo != tokens.vegetarian && tipo != tokens.vegan)
    && !(|f.excludeAllergens| > 0 && HasExcluded(keys, f.excludeAllergens))
  }

  /** The diet rules one by one: `vegan` keeps only vegan items, `vegetarian`
      keeps vegetarian and vegan items, any other diet keeps every type; in
      each case an item carrying an excluded allergen goes, and with no
      exclusions allergens never remove an item. */
  lemma DietRules(tipo: string, keys: seq<string>, f: Filters, tokens: DietTokens)
    ensures f.diet == "vegan" ==>
              (Admits(tipo, keys, f, tokens) <==> tipo == tokens.vegan && !HasExcluded(keys, f.excludeAllergens))
    ensures f.diet == "vegetarian" ==>
              (Admits(tipo, keys, f, tokens) <==>
                 (tipo == tokens.vegetarian || tipo == tokens.vegan) && !HasExcluded(keys, f.excludeAllergens))
    ensures f.diet != "vegan" && f.diet != "vegetarian" ==>
              (Admits(tipo, keys, f, tokens) <==> !HasExcluded(keys, f.excludeAllergens))
    ensures f.excludeAllergens == [] ==> !HasExcluded(keys, f.excludeAllergens)
    ensures Admits(tipo, keys, Filters("vegan", f.excludeAllergens), tokens) ==>
              Admits(tipo, keys, Filters("vegetarian", f.excludeAllergens), tokens)
  {
  }

  function Keep(f: Filters, tokens: DietTokens): Item -> bool {
    (x: Item) => Admits(x.tipo, x.allergenKeys, f, tokens)
  }

  /** `{ ...cat, items: cat.items.filter(...) }`. */
  function Narrow(c: Category, f: Filters, tokens: DietTokens): (r: Category)
    ensures r == c.(items := r.items)
  {
    c.(items := Filter(c.items, Keep(f, tokens)))
  }

  /** A narrowed category holds exactly the items of the category that pass
      the item test. */
  lemma NarrowItems(c: Category, f: Filters, tokens: DietTokens, x: Item)
    ensures x in Narrow(c, f, tokens).items <==> x in c.items && Keep(f, tokens)(x)
  {
    FilterMembers(c.items, Keep(f, tokens), x);
  }

  /** `applyFiltersToData`: every category with its items filtered, the
      categories left empty dropped. */
  function ApplyFilters(cats: seq<Category>, f: Filters, tokens: DietTokens): (r: seq<Category>)
    ensures |r| <= |cats|
  {
    if |cats| == 0 then []
    else
      var c := Narrow(cats[|cats| - 1], f, tokens);
      ApplyFilters(cats[..|cats| - 1], f, tokens) + (if c.items != [] then [c] else [])
  }

  lemma ApplyFiltersSnoc(cats: seq<Category>, c: Category, f: Filters, tokens: DietTokens)
    ensures ApplyFilters(cats + [c], f, tokens)
         == ApplyFilters(cats, f, tokens) + (if Narrow(c, f, tokens).items != [] then [Narrow(c, f, tokens)] else [])
  {
    assert (cats + [c])[..|cats|] == cats;
  }

  /** Categories are filtered one at a time and keep their order: filtering
      a concatenation is concatenating the filtered parts. */
  lemma {:induction false} ApplyFiltersConcat(a: seq<Category>, b: seq<Category>, f: Filters, tokens: DietTokens)
    ensures ApplyFilters(a + b, f, tokens) == ApplyFilters(a, f, tokens) + ApplyFilters(b, f, tokens)
    decreases |b|
  {
    if |b| == 0 {
      assert a + b == a;
    } else {
      var n := |b| - 1;
      assert a + b == (a + b[..n]) + [b[n]];
      assert b == b[..n] + [b[n]];
      ApplyFiltersConcat(a, b[..n], f, tokens);
      ApplyFiltersSnoc(a + b[..n], b[n], f, tokens);
      ApplyFiltersSnoc(b[..n], b[n], f, tokens);
    }
  }

  /** Every category in the result is an input category with its items
      narrowed, and it is not empty. */
  lemma {:induction false} ApplyFiltersSound(cats: seq<Category>, f: Filters, tokens: DietTokens)
    ensures forall c :: c in ApplyFilters(cats, f, tokens) ==>
              c.items != [] && exists j :: 0 <= j < |cats| && c == Narrow(cats[j], f, tokens)
  {
    if |cats| > 0 {
      var n := |cats| - 1;
      ApplyFiltersSound(cats[..n], f, tokens);
      forall c | c in ApplyFilters(cats, f, tokens)
        ensures c.items != [] && exists j :: 0 <= j < |cats| && c == Narrow(cats[j], f, tokens)
      {
        if c in ApplyFilters(cats[..n], f, tokens) {
          var j :| 0 <= j < n && c == Narrow(cats[..n][j], f, tokens);
          assert cats[..n][j] == cats[j];
        }
      }
    }
  }

  /** Every input category that keeps at least one item is in the result. */
  lemma {:induction false} ApplyFiltersComplete(cats: seq<Category>, f: Filters, tokens: DietTokens, j: nat)
    requires j < |cats| && Narrow(cats[j], f, tokens).items != []
    ensures Narrow(cats[j], f, tokens) in ApplyFilters(cats, f, tokens)
  {
    var n := |cats| - 1;
    if j < n {
      assert cats[..n][j] == cats[j];
      ApplyFiltersComplete(cats[..n], f, tokens, j);
    }
  }

  /** An item is shown exactly when it is in some input category and passes
      the item test. */
  lemma ApplyFiltersItems(cats: seq<Category>, f: Filters, tokens: DietTokens, x: Item)
    ensures (exists c :: c in ApplyFilters(cats, f, tokens) && x in c.items)
        <==> (exists c :: c in cats && x in c.items) && Keep(f, tokens)(x)
  {
    ApplyFiltersSound(cats, f, tokens);
    if exists c :: c in cats && x in c.items {
      var c :| c in cats && x in c.items;
      var j :| 0 <= j < |cats| && cats[j] == c;
      if Keep(f, tokens)(x) {
        NarrowItems(cats[j], f, tokens, x);
        ApplyFiltersComplete(cats, f, tokens, j);
      }
    }
    if exists c :: c in ApplyFilters(cats, f, tokens) && x in c.items {
      var c :| c in ApplyFilters(cats, f, tokens) && x in c.items;
      var j :| 0 <= j < |cats| && c == Narrow(cats[j], f, tokens);
      NarrowItems(cats[j], f, tokens, x);
    }
  }

  /** With the vegan diet every item shown is vegan. */
  lemma ApplyFiltersVegan(cats: seq<Category>, f: Filters, tokens: DietTokens, c: Category, x: Item)
    requires f.diet == "vegan" && c in ApplyFilters(cats, f, tokens) && x in c.items
    ensures x.tipo == tokens.vegan
  {
    ApplyFiltersItems(cats, f, tokens, x);
  }

  /** With the vegetarian diet a vegan item without excluded allergens is
      never dropped. */
  lemma ApplyFiltersVegetarianKeepsVegan(cats: seq<Category>, f: Filters, tokens: DietTokens, c: Category, x: Item)
    requires f.diet == "vegetarian" && c in cats && x in c.items && x.tipo == tokens.vegan
    requires !HasExcluded(x.allergenKeys, f.excludeAllergens)
    ensures exists c' :: c' in ApplyFilters(cats, f, tokens) && x in c'.items
  {
    ApplyFiltersItems(cats, f, tokens, x);
  }

  /** A list whose every category is non-empty and already passes the filter
      is its own result. */
  lemma {:induction false} ApplyFiltersFixed(cats: seq<Category>, f: Filters, tokens: DietTokens)
    requires forall i :: 0 <= i < |cats| ==> Narrow(cats[i], f, tokens) == cats[i] && cats[i].items != []
    ensures ApplyFilters(cats, f, tokens) == cats
  {
    if |cats| > 0 {
      var n := |cats| - 1;
      var init := cats[..n];
      assert forall i :: 0 <= i < |init| ==> init[i] == cats[i];
      ApplyFiltersFixed(init, f, tokens);
      var c := cats[n];
      assert Narrow(c, f, tokens) == c && c.items != [];
      ApplyFiltersSnoc(init, c, f, tokens);
      assert ApplyFilters(init + [c], f, tokens) == init + [c];
      assert cats == init + [c];
    }
  }

  /** Filtering twice is filtering once. */
  lemma ApplyFiltersIdempotent(cats: seq<Category>, f: Filters, tokens: DietTokens)
    ensures ApplyFilters(ApplyFilters(cats, f, tokens), f, tokens) == ApplyFilters(cats, f, tokens)
  {
    var r := ApplyFilters(cats, f, tokens);
    ApplyFiltersSound(cats, f, tokens);
    forall i | 0 <= i < |r| ensures Narrow(r[i], f, tokens) == r[i] && r[i].items != [] {
      assert r[i] in r;
      var j :| 0 <= j < |cats| && r[i] == Narrow(cats[j], f, tokens);
      FilterIdempotent(cats[j].items, Keep(f, tokens));
    }
    ApplyFiltersFixed(r, f, tokens);
  }

  predicate HasItems(c: Category) {
    c.items != []
  }

  /** With no diet and no exclusions the filter only drops the empty
      categories. */
  lemma {:induction false} ApplyFiltersNone(cats: seq<Category>, f: Filters, tokens: DietTokens)
    requires f.diet != "vegan" && f.diet != "vegetarian" && f.excludeAllergens == []
    ensures ApplyFilters(cats, f, tokens) == Filter(cats, HasItems)
  {
    if |cats| > 0 {
      var n := |cats| - 1;
      ApplyFiltersNone(cats[..n], f, tokens);
      FilterAll(cats[n].items, Keep(f, tokens));
    }
  }

  // ------------------------------------------------------------ status

  /** `h * 60 + m` where either may be NaN. */
  function HoursMinutes(h: Option<real>, m: Option<real>): Option<real> {
    if h.Some? && m.Some? then Some(h.value * 60.0 + m.value) else None
  }

  /** `parseTimeToMinutes`: the text before and after the first colon, each
      read with `Number`; None is NaN (a part that is not a number, or no
      colon at all). */
  function ParseTimeToMinutes(s: string): Option<real> {
    var parts := Split(s, ':');
    HoursMinutes(ToNumber(parts[0]), if |parts| > 1 then ToNumber(parts[1]) else None)
  }

  /** A clock text as `parseTimeValue` prints it reads back as its minutes
      past midnight. */
  lemma ParseClock(total: nat)
    ensures ParseTimeToMinutes(Clock(total)) == Some((total % 1440) as real)
  {
    ClockShape(total);
    ClockMinutes(total, (total / 60) % 24, total % 60, total % 1440);
    ClockText(Clock(total), (total / 60) % 24, total % 60, total % 1440);
  }

  /** Five characters `hh:mm` read as `h * 60 + m`. */
  lemma ClockText(c: string, h: nat, m: nat, k: nat)
    requires |c| == 5 && c[2] == ':' && forall i :: 0 <= i < 5 && i != 2 ==> IsDigit(c[i])
    requires DigitsValue(c[..2]) == h && DigitsValue(c[3..]) == m && h * 60 + m == k
    ensures ParseTimeToMinutes(c) == Some(k as real)
  {
    var hh, mm := c[..2], c[3..];
    ClockSplit(c);
    ToNumberDigits(hh);
    ToNumberDigits(mm);
    HoursMinutesWhole(ToNumber(hh), ToNumber(mm), h, m, k);
  }

  /** The colon of `hh:mm` splits it into its two digit groups. */
  lemma ClockSplit(c: string)
    requires |c| == 5 && c[2] == ':' && forall i :: 0 <= i < 5 && i != 2 ==> IsDigit(c[i])
    ensures Split(c, ':') == [c[..2], c[3..]]
  {
    var hh, mm := c[..2], c[3..];
    assert c == hh + [':'] + mm;
    SplitParts(hh, mm);
  }

  lemma ClockMinutes(total: nat, h: nat, m: nat, k: nat)
    requires h == (total / 60) % 24 && m == total % 60 && k == total % 1440
    ensures h * 60 + m == k
  {
    DayClock(total);
  }

  lemma HoursMinutesWhole(x: Option<real>, y: Option<real>, h: nat, m: nat, k: nat)
    requires x == Some(h as real) && y == Some(m as real) && h * 60 + m == k
    ensures HoursMinutes(x, y) == Some(k as real)
  {
  }

  lemma SplitParts(hh: string, mm: string)
    requires ':' !in hh && ':' !in mm
    ensures Split(hh + [':'] + mm, ':') == [hh, mm]
  {
    SplitAt(hh, ':', mm);
    SplitPlain(mm, ':');
  }

  /** Hours modulo a day and the minutes within the hour make the minutes
      within the day. */
  lemma DayClock(t: nat)
    ensures (t / 60) % 24 * 60 + t % 60 == t % 1440
  {
    var q, r := t / 1440, t % 1440;
    assert t == 1440 * q + r;
    assert t / 60 == 24 * q + r / 60;
    assert t % 60 == r % 60;
    assert (t / 60) % 24 == r / 60;
  }

  /** A non-negative day fraction becomes a clock text whose minutes are
      the rounded minutes of the fraction within one day. */
  lemma ParseTimeRoundTrip(v: string, format: string)
    requires v != [] && !Contains(Trim(v), ":") && ParseNumber(v, format).Some?
    requires ParseNumber(v, format).value >= 0.0
    ensures ParseTimeToMinutes(ParseTimeValue(v, format))
         == Some((DayMinutes(ParseNumber(v, format).value) % 1440) as real)
  {
    ParseTimeValueClock(v, format);
    ParseClock(DayMinutes(ParseNumber(v, format).value));
  }

  /** JavaScript `a < b` on numbers that may be NaN. */
  predicate Lt(a: Option<real>, b: Option<real>) {
    a.Some? && b.Some? && a.value < b.value
  }

  /** JavaScript `a >= b` on numbers that may be NaN. */
  predicate Ge(a: Option<real>, b: Option<real>) {
    a.Some? && b.Some? && a.value >= b.value
  }

  datatype Verdict = Omitted | ActiveNow | UpcomingIn(minutes: real)

  /** The classification of one of today's entries at `now` minutes past
      midnight. */
  function Classify(now: real, open: Option<real>, close: Option<real>): (v: Verdict)
    // an entry that does not cross midnight
    ensures open.Some? && close.Some? && close.value >= open.value ==>
              (v.ActiveNow? <==> open.value <= now < close.value)
              && (v.UpcomingIn? <==> now < open.value)
    // an entry that crosses midnight is never omitted
    ensures open.Some? && close.Some? && close.value < open.value ==>
              (v.ActiveNow? <==> now >= open.value || now < close.value)
              && !v.Omitted?
    // an unreadable opening time omits the entry; an unreadable closing
    // time leaves it upcoming until it opens
    ensures open.None? ==> v.Omitted?
    ensures open.Some? && close.None? ==> (v.UpcomingIn? <==> now < open.value) && !v.ActiveNow?
    ensures v.UpcomingIn? ==> open.Some? && v.minutes == open.value - now > 0.0
  {
    var cur := Some(now);
    if Lt(close, open) then
      if Ge(cur, open) || Lt(cur, close) then ActiveNow
      else if Lt(cur, open) && Ge(cur, close) then UpcomingIn(open.value - now)
      else Omitted
    else if Ge(cur, open) && Lt(cur, close) then ActiveNow
    else if Lt(cur, open) then UpcomingIn(open.value - now)
    else Omitted
  }

  datatype Status = Active | Upcoming

  /** One line of the hero status. */
  datatype SlotStatus = SlotStatus(slotLabel: string, status: Status, isKitchen: bool, minutesUntil: real)

  /** `slot['label_' + lang] || slot.label_en || slot.id`. */
  function Label(slot: TimeSlot, lang: string): (r: string)
    ensures lang == "it" && slot.labelIt != [] ==> r == slot.labelIt
    ensures lang != "it" && slot.labelEn != [] ==> r == slot.labelEn
    ensures r == slot.labelIt || r == slot.labelEn || r == slot.id
  {
    var own := if lang == "it" then slot.labelIt else if lang == "en" then slot.labelEn else [];
    Or(own, Or(slot.labelEn, slot.id))
  }

  /** `now.getDay() === 0 ? 7 : now.getDay()`: Sunday is 7. */
  function IsoWeekday(weekday: nat): (d: nat)
    requires weekday < 7
    ensures 1 <= d <= 7
    ensures weekday == 0 <==> d == 7
    ensures weekday != 0 ==> d == weekday
  {
    if weekday == 0 then 7 else weekday
  }

  /** The line a classification gives for `slot`, if any. */
  function LineOf(slot: TimeSlot, lang: string, v: Verdict): Option<SlotStatus> {
    match v
    case Omitted => None
    case ActiveNow => Some(SlotStatus(Label(slot, lang), Active, slot.isKitchen, 0.0))
    case UpcomingIn(m) => Some(SlotStatus(Label(slot, lang), Upcoming, slot.isKitchen, m))
  }

  /** What one schedule entry contributes: nothing unless its day is today,
      otherwise its classification. */
  function EntryStatus(slot: TimeSlot, lang: string, today: nat, now: real, e: Entry): Option<SlotStatus> {
    if e.day != today then None
    else LineOf(slot, lang, Classify(now, ParseTimeToMinutes(e.open), ParseTimeToMinutes(e.close)))
  }

  /** A line carries the slot's label and kitchen flag; an active line
      waits 0 minutes and an upcoming one a positive number of minutes. */
  lemma LineShape(slot: TimeSlot, lang: string, now: real, open: Option<real>, close: Option<real>)
    ensures var r := LineOf(slot, lang, Classify(now, open, close));
            r.Some? ==> r.value.slotLabel == Label(slot, lang) && r.value.isKitchen == slot.isKitchen
                        && (r.value.status == Active <==> r.value.minutesUntil == 0.0)
                        && (r.value.status == Upcoming ==> r.value.minutesUntil > 0.0)
  {
  }

  /** A line comes only from an entry of today, and has the shape above. */
  lemma EntryStatusShape(slot: TimeSlot, lang: string, today: nat, now: real, e: Entry)
    ensures var r := EntryStatus(slot, lang, today, now, e);
            r.Some? ==> e.day == today && r.value.slotLabel == Label(slot, lang) && r.value.isKitchen == slot.isKitchen
                        && (r.value.status == Active <==> r.value.minutesUntil == 0.0)
                        && (r.value.status == Upcoming ==> r.value.minutesUntil > 0.0)
  {
    if e.day == today {
      LineShape(slot, lang, now, ParseTimeToMinutes(e.open), ParseTimeToMinutes(e.close));
    }
  }

  function StatusOf(slot: TimeSlot, lang: string, today: nat, now: real): Entry -> Option<SlotStatus> {
    (e: Entry) => EntryStatus(slot, lang, today, now, e)
  }

  lemma StatusOfIs(slot: TimeSlot, lang: string, today: nat, now: real, e: Entry, st: Option<SlotStatus>)
    requires EntryStatus(slot, lang, today, now, e) == st
    ensures StatusOf(slot, lang, today, now)(e) == st
  {
  }

  /** The statuses the two nested loops push, in push order. */
  function Statuses(slots: seq<TimeSlot>, lang: string, today: nat, now: real): seq<SlotStatus> {
    if |slots| == 0 then []
    else
      var s := slots[|slots| - 1];
      Statuses(slots[..|slots| - 1], lang, today, now) + FilterMap(s.schedule, StatusOf(s, lang, today, now))
  }

  /** The sort key: the comparator puts active lines first and orders the
      rest by `minutesUntil`; since active lines carry 0 and upcoming ones a
      positive number, that is the order of `minutesUntil`. */
  function MinutesUntil(s: SlotStatus): real {
    s.minutesUntil
  }

  /** `getUpcomingSlots(now)` for a clock reading of `weekday` (0 is Sunday),
      `hours` and `minutes`; `heroSlots` is None when the hero list is
      missing. */
  function UpcomingSlots(heroSlots: Option<seq<TimeSlot>>, lang: string, weekday: nat, hours: nat, minutes: nat)
    : seq<SlotStatus>
    requires weekday < 7
  {
    match heroSlots
    case None => []
    case Some(slots) =>
      Take(SortBy(Statuses(slots, lang, IsoWeekday(weekday), (hours * 60 + minutes) as real), MinutesUntil), 3)
  }

  lemma StatusesSnoc(slots: seq<TimeSlot>, s: TimeSlot, lang: string, today: nat, now: real)
    ensures Statuses(slots + [s], lang, today, now)
         == Statuses(slots, lang, today, now) + FilterMap(s.schedule, StatusOf(s, lang, today, now))
  {
    assert (slots + [s])[..|slots|] == slots;
  }

  /** The status lines today's entries of `slots` give rise to. */
  ghost predicate FromToday(slots: seq<TimeSlot>, lang: string, today: nat, now: real, x: SlotStatus) {
    exists i, j :: 0 <= i < |slots| && 0 <= j < |slots[i].schedule|
                && EntryStatus(slots[i], lang, today, now, slots[i].schedule[j]) == Some(x)
  }

  /** Every line pushed stems from an entry of some slot. */
  lemma {:induction false} StatusesSound(slots: seq<TimeSlot>, lang: string, today: nat, now: real, x: SlotStatus)
    requires x in Statuses(slots, lang, today, now)
    ensures FromToday(slots, lang, today, now, x)
  {
    var n := |slots| - 1;
    var s := slots[n];
    if x in Statuses(slots[..n], lang, today, now) {
      StatusesSound(slots[..n], lang, today, now, x);
      var i, j :| 0 <= i < n && 0 <= j < |slots[..n][i].schedule|
                  && EntryStatus(slots[..n][i], lang, today, now, slots[..n][i].schedule[j]) == Some(x);
      assert slots[..n][i] == slots[i];
    } else {
      FilterMapMembers(s.schedule, StatusOf(s, lang, today, now), x);
      var j :| 0 <= j < |s.schedule| && StatusOf(s, lang, today, now)(s.schedule[j]) == Some(x);
      assert EntryStatus(slots[n], lang, today, now, slots[n].schedule[j]) == Some(x);
    }
  }

  /** Every entry of today that the classification does not omit gives a
      line. */
  lemma {:induction false} StatusesComplete(slots: seq<TimeSlot>, lang: string, today: nat, now: real, i: nat, j: nat)
    requires i < |slots| && j < |slots[i].schedule|
    requires EntryStatus(slots[i], lang, today, now, slots[i].schedule[j]).Some?
    ensures EntryStatus(slots[i], lang, today, now, slots[i].schedule[j]).value in Statuses(slots, lang, today, now)
  {
    var n := |slots| - 1;
    var x := EntryStatus(slots[i], lang, today, now, slots[i].schedule[j]).value;
    if i < n {
      assert slots[..n][i] == slots[i];
      StatusesComplete(slots[..n], lang, today, now, i, j);
    } else {
      assert i == n;
      StatusOfIs(slots[i], lang, today, now, slots[i].schedule[j], Some(x));
      FilterMapMembers(slots[i].schedule, StatusOf(slots[i], lang, today, now), x);
    }
  }

  /** An element of the sorted and cut list is one of the lines pushed. */
  lemma TakeSorted(st: seq<SlotStatus>, r: seq<SlotStatus>, i: nat)
    requires r == Take(SortBy(st, MinutesUntil), 3) && i < |r|
    ensures r[i] in st
  {
    var all := SortBy(st, MinutesUntil);
    assert r[i] == all[i];
    SortByMembers(st, MinutesUntil);
  }

  /** The hero status: the first three of all of today's lines sorted by
      waiting time (all of them when there are fewer), active lines before
      upcoming ones,
      upcoming lines by increasing waiting time, and each line stemming
      from one of today's entries. */
  lemma UpcomingSlotsSpec(slots: seq<TimeSlot>, lang: string, weekday: nat, hours: nat, minutes: nat)
    requires weekday < 7
    ensures var r := UpcomingSlots(Some(slots), lang, weekday, hours, minutes);
            var all := SortBy(Statuses(slots, lang, IsoWeekday(weekday), (hours * 60 + minutes) as real), MinutesUntil);
            |r| == (if |all| < 3 then |all| else 3) && r == all[..|r|]
            && (forall i, j :: 0 <= i < j < |r| ==> r[i].minutesUntil <= r[j].minutesUntil)
            && (forall i, j :: 0 <= i < j < |r| && r[j].status == Active ==> r[i].status == Active)
            && (forall i :: 0 <= i < |r| ==> FromToday(slots, lang, IsoWeekday(weekday), (hours * 60 + minutes) as real, r[i]))
  {
    var today, now := IsoWeekday(weekday), (hours * 60 + minutes) as real;
    var st := Statuses(slots, lang, today, now);
    var r := UpcomingSlots(Some(slots), lang, weekday, hours, minutes);
    SortBySorted(st, MinutesUntil);
    forall i | 0 <= i < |r| ensures FromToday(slots, lang, today, now, r[i]) {
      TakeSorted(st, r, i);
      StatusesSound(slots, lang, today, now, r[i]);
    }
    forall i, j | 0 <= i < j < |r| && r[j].status == Active ensures r[i].status == Active {
      LineWaits(slots, lang, today, now, r[i]);
      LineWaits(slots, lang, today, now, r[j]);
    }
  }

  /** A line of today's entries waits 0 minutes exactly when it is active,
      and an upcoming one waits a positive number of minutes. */
  lemma LineWaits(slots: seq<TimeSlot>, lang: string, today: nat, now: real, x: SlotStatus)
    requires FromToday(slots, lang, today, now, x)
    ensures x.status == Active <==> x.minutesUntil == 0.0
    ensures x.status == Upcoming ==> x.minutesUntil > 0.0
  {
    var i, j :| 0 <= i < |slots| && 0 <= j < |slots[i].schedule|
                && EntryStatus(slots[i], lang, today, now, slots[i].schedule[j]) == Some(x);
    EntryStatusShape(slots[i], lang, today, now, slots[i].schedule[j]);
  }

  /** `getUpcomingSlots`: the nested loops push one line per classified
      entry of today, then the lines are sorted and cut to three. */
  method GetUpcomingSlots(heroSlots: Option<seq<TimeSlot>>, lang: string, weekday: nat, hours: nat, minutes: nat)
    returns (result: seq<SlotStatus>)
    requires weekday < 7
    ensures result == UpcomingSlots(heroSlots, lang, weekday, hours, minutes)
  {
    if heroSlots.None? {
      return [];
    }
    var timeSlots := heroSlots.value;
    var dayOfWeek := IsoWeekday(weekday);
    var currentMinutes := (hours * 60 + minutes) as real;
    var upcoming: seq<SlotStatus> := [];
    var i := 0;
    while i < |timeSlots|
      invariant 0 <= i <= |timeSlots|
      invariant upcoming == Statuses(timeSlots[..i], lang, dayOfWeek, currentMinutes)
    {
      upcoming := PushSlot(upcoming, timeSlots, i, lang, dayOfWeek, currentMinutes);
      i := i + 1;
    }
    assert timeSlots[..i] == timeSlots;
    result := Take(SortBy(upcoming, MinutesUntil), 3);
  }

  /** The inner loop over one slot's schedule. */
  method PushSlot(upcoming: seq<SlotStatus>, timeSlots: seq<TimeSlot>, i: nat, lang: string, today: nat, now: real)
    returns (pushed: seq<SlotStatus>)
    requires i < |timeSlots| && upcoming == Statuses(timeSlots[..i], lang, today, now)
    ensures pushed == Statuses(timeSlots[..i + 1], lang, today, now)
  {
    var slot := timeSlots[i];
    var sched := slot.schedule;
    pushed := upcoming;
    var j := 0;
    while j < |sched|
      invariant 0 <= j <= |sched|
      invariant pushed == upcoming + FilterMap(sched[..j], StatusOf(slot, lang, today, now))
    {
      PrefixSnoc(sched, j);
      FilterMapSnoc(sched[..j], sched[j], StatusOf(slot, lang, today, now));
      var st := EntryStatus(slot, lang, today, now, sched[j]);
      StatusOfIs(slot, lang, today, now, sched[j], st);
      if st.Some? {
        pushed := pushed + [st.value];
      }
      j := j + 1;
    }
    assert sched[..j] == sched;
    PrefixSnoc(timeSlots, i);
    StatusesSnoc(timeSlots[..i], slot, lang, today, now);
  }

  // ------------------------------------------------------------ duration text

  /** `formatDuration(minutes)` with the translated `kitchen.inMinutes` and
      `kitchen.inHours` texts: under an hour the first `{minutes}` is
      replaced by the number of minutes, otherwise the first `{hours}` by
      the number of hours rounded to the nearest whole hour. */
  function FormatDuration(minutes: int, inMinutes: string, inHours: string): (r: string)
    ensures minutes < 60 ==> r == ReplaceFirst(inMinutes, "{minutes}", IntToString(minutes))
    ensures minutes >= 60 ==> r == ReplaceFirst(inHours, "{hours}", IntToString(RoundedHours(minutes as real)))
  {
    if minutes < 60 then ReplaceFirst(inMinutes, "{minutes}", IntToString(minutes))
    else ReplaceFirst(inHours, "{hours}", IntToString(Round(minutes as real / 60.0)))
  }

  /** `Math.round(minutes / 60)`: for an hour or more, at least one hour and
      within half an hour of the exact duration. */
  function RoundedHours(minutes: real): (h: int)
    ensures minutes >= 60.0 ==> h >= 1
    ensures (h * 60 - 30) as real <= minutes < (h * 60 + 30) as real
  {
    Round(minutes as real / 60.0)
  }
}
