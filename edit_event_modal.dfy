/**
 * The event modal of src/components/EditEventModal.tsx: the form draft, its conversions from and
 * to the calendar's event shape, the resolution of the chosen character and place ids against the
 * configuration, and the id policy of a submit (an edit keeps its id, a new event gets a fresh one).
 */
module EditEventModal {
  import opened Wrappers
  import opened JsText
  import opened HmTime
  import opened Models
  import opened Seqs

  /** A form's `place`: the empty placeholder `{}`, `undefined` (no place found), or a place. */
  datatype FormPlace = EmptyPlace | NoPlace | AtPlace(place: Place)

  /** `FormEvent`: the draft the form edits. An absent `endTime` is modelled as "", which every reader treats alike. */
  datatype FormEvent = FormEvent(
    id: string,
    startTime: string,
    endTime: string,
    placeId: string,
    place: FormPlace,
    characterIds: seq<string>,
    characters: seq<Character>,
    color: string,
    detail: string)

  /**
   * What the modal reads of the calendar's event: `startStr` and `endStr` when the event has a
   * start or end, and the characters and place of its `extendedProps` when present.
   */
  datatype EventApi = EventApi(
    id: string,
    startStr: Option<string>,
    endStr: Option<string>,
    title: string,
    backgroundColor: string,
    characters: Option<seq<Character>>,
    place: Option<Place>)

  /** `toToday(hm)`: today's local date at `h * 60 + m` minutes past midnight. */
  datatype CalTime = NoTime | TodayAt(minutes: nat)

  /** The calendar event `formToCalendar` builds; `NoTime` is the empty end string. */
  datatype CalendarEvent = CalendarEvent(
    id: string,
    title: string,
    start: CalTime,
    end: CalTime,
    borderColor: string,
    backgroundColor: string,
    characters: seq<Character>,
    place: FormPlace)

  /** The two store actions a submit dispatches. */
  datatype EventAction = UpdateTimelineEvent(event: CalendarEvent) | CreateTimelineEvent(event: CalendarEvent)

  /** `String(c.id)` of every character, in order: the ids the character chips hold. */
  function CharacterKeys(cs: seq<Character>): (keys: seq<string>)
    ensures |keys| == |cs|
    ensures forall i :: 0 <= i < |cs| ==> keys[i] == NumberToString(cs[i].id)
  {
    seq(|cs|, i requires 0 <= i < |cs| => NumberToString(cs[i].id))
  }

  /** The ids of the configured characters are pairwise distinct. */
  predicate UniqueCharacterIds(cs: seq<Character>) {
    forall i, j :: 0 <= i < j < |cs| ==> cs[i].id != cs[j].id
  }

  /** The test of the character lookup: `(c) => String(c.id) === key`. */
  function PrintedAs(key: string): Character -> bool {
    (c: Character) => NumberToString(c.id) == key
  }

  /** `characters.find((c) => String(c.id) === key)`: the first character printed as `key`. */
  function FindCharacterByKey(cs: seq<Character>, key: string): (r: Option<Character>)
    ensures r.None? <==> forall i :: 0 <= i < |cs| ==> NumberToString(cs[i].id) != key
    ensures r.Some? ==> r.value in cs && NumberToString(r.value.id) == key
    ensures r.Some? ==> exists k :: 0 <= k < |cs| && cs[k] == r.value && forall j :: 0 <= j < k ==> NumberToString(cs[j].id) != key
  {
    var i := FirstIndex(cs, PrintedAs(key));
    if i.None? then None
    else
      assert forall j :: 0 <= j < i.value ==> NumberToString(cs[j].id) != key;
      Some(cs[i.value])
  }

  /** `places.find((p) => String(p.id) === key)`: the first place printed as `key`. */
  function FindPlaceByKey(places: seq<Place>, key: string): (r: Option<Place>)
    ensures r.None? <==> forall i :: 0 <= i < |places| ==> NumberToString(places[i].id) != key
    ensures r.Some? ==> NumberToString(r.value.id) == key && r.value in places
  {
    if places == [] then None
    else if NumberToString(places[0].id) == key then Some(places[0])
    else
      assert forall i :: 1 <= i < |places| ==> places[i] == places[1..][i - 1];
      FindPlaceByKey(places[1..], key)
  }

  /** Comparing printed ids is comparing ids: looking a place up by its printed id is the plain id lookup. */
  lemma {:induction false} FindPlaceByKeyAgrees(places: seq<Place>, id: int)
    ensures FindPlaceByKey(places, NumberToString(id)) == FindPlace(places, id)
  {
    if places != [] {
      if NumberToString(places[0].id) == NumberToString(id) {
        NumberToStringInjective(places[0].id, id);
      } else {
        FindPlaceByKeyAgrees(places[1..], id);
      }
    }
  }

  /** With distinct ids, a configured character is found by its own printed id. */
  lemma FindCharacterUnique(cs: seq<Character>, k: nat)
    requires UniqueCharacterIds(cs) && k < |cs|
    ensures FindCharacterByKey(cs, NumberToString(cs[k].id)) == Some(cs[k])
  {
    var j := FirstIndex(cs, PrintedAs(NumberToString(cs[k].id))).value;
    NumberToStringInjective(cs[j].id, cs[k].id);
    assert j == k;
  }

  /**
   * `characterIds.map(find).filter(Boolean)`: each id, in order, replaced by the first configured
   * character printed as it, and dropped when there is none. Repeated ids are kept.
   */
  function ResolveCharacters(ids: seq<string>, config: seq<Character>): (r: seq<Character>)
    ensures |r| <= |ids|
    ensures forall c :: c in r ==> c in config && NumberToString(c.id) in ids
  {
    if ids == [] then []
    else
      var found := FindCharacterByKey(config, ids[0]);
      var rest := ResolveCharacters(ids[1..], config);
      assert forall c :: c in rest ==> NumberToString(c.id) in ids by {
        assert forall k :: k in ids[1..] ==> k in ids;
      }
      (if found.Some? then [found.value] else []) + rest
  }

  /** Resolution works id by id: resolving a concatenation concatenates the resolutions. */
  lemma {:induction false} ResolveAppend(a: seq<string>, b: seq<string>, config: seq<Character>)
    ensures ResolveCharacters(a + b, config) == ResolveCharacters(a, config) + ResolveCharacters(b, config)
  {
    if a != [] {
      assert (a + b)[0] == a[0] && (a + b)[1..] == a[1..] + b;
      ResolveAppend(a[1..], b, config);
    } else {
      assert a + b == b;
    }
  }

  /** An id that matches nothing disappears; one that matches is kept as often as it is listed. */
  lemma ResolveSingles(key: string, config: seq<Character>)
    ensures FindCharacterByKey(config, key).None? ==> ResolveCharacters([key], config) == []
    ensures FindCharacterByKey(config, key).Some? ==>
      ResolveCharacters([key, key], config) == [FindCharacterByKey(config, key).value, FindCharacterByKey(config, key).value]
  {
    assert [key, key][1..] == [key];
    assert [key][1..] == [];
  }

  /**
   * The chips' ids of configured characters with distinct ids resolve back to those very
   * characters, in the same order.
   */
  lemma {:induction false} ResolveKeys(cs: seq<Character>, config: seq<Character>)
    requires UniqueCharacterIds(config)
    requires forall c :: c in cs ==> c in config
    ensures ResolveCharacters(CharacterKeys(cs), config) == cs
  {
    if cs != [] {
      assert cs[0] in cs;
      FindMember(config, cs[0]);
      assert forall c :: c in cs[1..] ==> c in cs;
      ResolveKeys(cs[1..], config);
      ResolveKeysStep(cs, config);
    }
  }

  /** With distinct ids, every configured character is found by its own printed id. */
  lemma FindMember(config: seq<Character>, c: Character)
    requires UniqueCharacterIds(config) && c in config
    ensures FindCharacterByKey(config, NumberToString(c.id)) == Some(c)
  {
    var k :| 0 <= k < |config| && config[k] == c;
    FindCharacterUnique(config, k);
  }

  /** A first chip id that finds its own character, followed by ids that resolve back, resolves back. */
  lemma ResolveKeysStep(cs: seq<Character>, config: seq<Character>)
    requires cs != [] && FindCharacterByKey(config, NumberToString(cs[0].id)) == Some(cs[0])
    requires ResolveCharacters(CharacterKeys(cs[1..]), config) == cs[1..]
    ensures ResolveCharacters(CharacterKeys(cs), config) == cs
  {
    ConsTail(cs);
    ResolveFirstKey(cs, config);
  }

  /** A non-empty list is its head followed by its tail. */
  lemma ConsTail<T>(s: seq<T>)
    requires s != []
    ensures [s[0]] + s[1..] == s
  {
  }

  /** The first chip id, when it finds its own character, contributes exactly that character. */
  lemma ResolveFirstKey(cs: seq<Character>, config: seq<Character>)
    requires cs != [] && FindCharacterByKey(config, NumberToString(cs[0].id)) == Some(cs[0])
    ensures ResolveCharacters(CharacterKeys(cs), config) == [cs[0]] + ResolveCharacters(CharacterKeys(cs[1..]), config)
  {
    var keys := CharacterKeys(cs);
    assert keys[1..] == CharacterKeys(cs[1..]);
  }

  /**
   * `buildEventPayload`: a new draft with the characters resolved from `characterIds` (each id in
   * order to its first match, unknown ids dropped, repeats kept) and the first place printed as
   * `placeId` (or `undefined`); every other field is passed through.
   */
  function BuildEventPayload(values: FormEvent, config: TimelineConfig): (r: FormEvent)
    ensures r.(characters := values.characters, place := values.place) == values
    ensures r.characters == ResolveCharacters(values.characterIds, config.characters)
    ensures r.place == if FindPlaceByKey(config.places, values.placeId).Some? then AtPlace(FindPlaceByKey(config.places, values.placeId).value) else NoPlace
    ensures |r.characters| <= |values.characterIds|
    ensures forall c :: c in r.characters ==> c in config.characters && NumberToString(c.id) in values.characterIds
    ensures r.place.NoPlace? <==> forall i :: 0 <= i < |config.places| ==> NumberToString(config.places[i].id) != values.placeId
    ensures r.place.AtPlace? ==> r.place.place in config.places && NumberToString(r.place.place.id) == values.placeId
  {
    var place := FindPlaceByKey(config.places, values.placeId);
    values.(characters := ResolveCharacters(values.characterIds, config.characters),
            place := if place.Some? then AtPlace(place.value) else NoPlace)
  }

  /** `toToday(hm)`, or `None` where the invalid date makes `toISOString` throw. */
  function ToToday(hm: string): (r: Option<CalTime>)
    ensures r.Some? <==> ToMinutes(hm).Int?
    ensures r.Some? ==> r.value.TodayAt? && Int(r.value.minutes) == ToMinutes(hm)
  {
    var m := ToMinutes(hm);
    if m.Int? then Some(TodayAt(m.value)) else None
  }

  /**
   * `formToCalendar`: title from the detail, both colours from the colour, the resolved characters
   * and place carried along, an empty end kept empty; `None` where a time does not convert.
   */
  function FormToCalendar(form: FormEvent): (r: Option<CalendarEvent>)
    ensures r.Some? <==> ToMinutes(form.startTime).Int? && (form.endTime == "" || ToMinutes(form.endTime).Int?)
    ensures r.Some? ==> (r.value.id == form.id && r.value.title == form.detail &&
      r.value.borderColor == form.color && r.value.backgroundColor == form.color &&
      r.value.characters == form.characters && r.value.place == form.place)
    ensures r.Some? ==> (r.value.end.NoTime? <==> form.endTime == "")
    ensures r.Some? ==> r.value.start.TodayAt? && Int(r.value.start.minutes) == ToMinutes(form.startTime)
  {
    var start := ToToday(form.startTime);
    var end := if form.endTime == "" then Some(NoTime) else ToToday(form.endTime);
    if start.None? || end.None? then None
    else Some(CalendarEvent(form.id, form.detail, start.value, end.value, form.color, form.color, form.characters, form.place))
  }

  /**
   * `handleSubmit`: the draft is resolved and converted; an edit dispatches an update under the
   * draft's own id, a new event is first given `freshId` (the uuid) and dispatched as a creation.
   * `None`: the conversion throws and nothing is dispatched.
   */
  method HandleSubmit(editing: bool, values: FormEvent, config: TimelineConfig, freshId: string)
    returns (action: Option<EventAction>)
    ensures action.Some? <==> FormToCalendar(BuildEventPayload(values, config)).Some?
    ensures action.Some? && editing ==>
      action.value == UpdateTimelineEvent(FormToCalendar(BuildEventPayload(values, config)).value)
    ensures action.Some? && editing ==> action.value.event.id == values.id
    ensures action.Some? && !editing ==> (action.value.CreateTimelineEvent? && action.value.event.id == freshId &&
      action.value.event.(id := values.id) == FormToCalendar(BuildEventPayload(values, config)).value)
  {
    var converted := FormToCalendar(BuildEventPayload(values, config));
    if converted.None? {
      return None;
    }
    var payload := converted.value;
    if editing {
      action := Some(UpdateTimelineEvent(payload));
    } else {
      payload := payload.(id := freshId);
      action := Some(CreateTimelineEvent(payload));
    }
  }

  /**
   * `calendarToForm`: the event's id, title and colour; its times as "HH:mm" (`isoToHm` is the
   * local-time conversion) or "" when it has none; its characters and their printed ids; and its
   * place and printed id, or the `{}` placeholder and "".
   */
  function CalendarToForm(event: EventApi, isoToHm: string -> string): (r: FormEvent)
    ensures r.id == event.id && r.detail == event.title && r.color == event.backgroundColor
    ensures r.startTime == (if event.startStr.Some? then isoToHm(event.startStr.value) else "")
    ensures r.endTime == (if event.endStr.Some? then isoToHm(event.endStr.value) else "")
    ensures r.characterIds == CharacterKeys(r.characters)
    ensures r.characters == (if event.characters.Some? then event.characters.value else [])
    ensures event.place.None? ==> r.place.EmptyPlace? && r.placeId == ""
    ensures event.place.Some? ==> r.place == AtPlace(event.place.value) && r.placeId == NumberToString(event.place.value.id)
  {
    var characters := if event.characters.Some? then event.characters.value else [];
    FormEvent(
      event.id,
      if event.startStr.Some? then isoToHm(event.startStr.value) else "",
      if event.endStr.Some? then isoToHm(event.endStr.value) else "",
      if event.place.Some? then NumberToString(event.place.value.id) else "",
      if event.place.Some? then AtPlace(event.place.value) else EmptyPlace,
      CharacterKeys(characters),
      characters,
      event.backgroundColor,
      event.title)
  }

  /** `getInitialValues`: no event gives a blank draft in the default grey; an event is converted. */
  function GetInitialValues(event: Option<EventApi>, isoToHm: string -> string): (r: FormEvent)
    ensures event.None? ==> r == FormEvent("", "", "", "", EmptyPlace, [], [], "#868e96", "")
    ensures event.Some? ==> r == CalendarToForm(event.value, isoToHm)
  {
    if event.None? then FormEvent("", "", "", "", EmptyPlace, [], [], "#868e96", "")
    else CalendarToForm(event.value, isoToHm)
  }

  /**
   * Opening an event of the configuration and saving it unchanged resolves back to the same
   * characters and place: characters and places with distinct ids survive the round trip through
   * printed ids. An event without a place comes back with `undefined` in place of the placeholder.
   */
  lemma EditRoundTrip(event: EventApi, isoToHm: string -> string, config: TimelineConfig)
    requires UniqueCharacterIds(config.characters) && UniqueIds(config.places)
    requires event.characters.Some? ==> forall c :: c in event.characters.value ==> c in config.characters
    requires event.place.Some? ==> event.place.value in config.places
    ensures var payload := BuildEventPayload(CalendarToForm(event, isoToHm), config);
      payload.characters == (if event.characters.Some? then event.characters.value else []) &&
      payload.place == (if event.place.Some? then AtPlace(event.place.value) else NoPlace)
  {
    var form := CalendarToForm(event, isoToHm);
    ResolveKeys(form.characters, config.characters);
    if event.place.Some? {
      var k :| 0 <= k < |config.places| && config.places[k] == event.place.value;
      FindPlaceByKeyAgrees(config.places, event.place.value.id);
      FindPlaceUnique(config.places, k);
    }
  }
}
