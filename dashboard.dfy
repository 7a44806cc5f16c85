/**
 * components/AdminDashboard.tsx: the builder. It edits a local copy of the
 * selected configuration, saving every edit through the shell, validates it
 * before a manual save, builds the two shareable links and lists the
 * submissions made for the selected event.
 */
module Dashboard {
  import opened Types
  import opened Json
  import opened Storage
  import opened Lists
  import Utf8
  import Base64
  import UriCodec
  import SearchParams
  import App
  import Form

  /** The loop of toBase64 (lines 10-13): one character per byte, its code equal to the byte. */
  method BinaryOf(bytes: seq<Utf8.byte>) returns (binary: string)
    ensures binary == Base64.Latin1(bytes)
  {
    binary := "";
    var i := 0;
    while i < |bytes|
      invariant 0 <= i <= |bytes|
      invariant |binary| == i
      invariant forall k :: 0 <= k < i ==> binary[k] as int == bytes[k]
    {
      binary := binary + [bytes[i] as char];
      i := i + 1;
    }
  }

  /** toBase64: btoa of the binary string of the UTF-8 bytes, which btoa always accepts. */
  function ToBase64(s: string): string
  {
    Base64.Btoa(Base64.Latin1(Utf8.Encode(s))).value
  }

  /** toBase64 is the base 64 encoding of the UTF-8 bytes. */
  lemma ToBase64IsEncoding(s: string)
    ensures ToBase64(s) == Base64.Encode(Utf8.Encode(s))
  {
    var bs := Utf8.Encode(s);
    assert Base64.Codes(Base64.Latin1(bs)) == bs;
  }

  /** The link payload survives the trip: fromBase64(toBase64(s)) == s, unless s starts with a byte-order mark. */
  lemma LinkRoundTrip(s: string)
    requires s == [] || s[0] != Utf8.ByteOrderMark
    ensures App.FromBase64(ToBase64(s)) == Some(s)
  {
    ToBase64IsEncoding(s);
    App.FromBase64OfEncoding(Utf8.Encode(s));
    Utf8.TextDecodeEncode(s);
  }

  /** A leading byte-order mark is the one thing the trip loses. */
  lemma LinkDropsLeadingBom(s: string)
    ensures App.FromBase64(ToBase64([Utf8.ByteOrderMark] + s)) == Some(s)
  {
    ToBase64IsEncoding([Utf8.ByteOrderMark] + s);
    App.FromBase64OfEncoding(Utf8.Encode([Utf8.ByteOrderMark] + s));
    Utf8.TextDecodeDropsBom(s);
  }

  /** String.prototype.trim's white space: WhiteSpace and LineTerminator of ECMA-262. */
  predicate IsJsWhitespace(c: char)
  {
    c == '\t' || c == '\n' || c == '\U{000B}' || c == '\U{000C}' || c == '\r' || c == ' '
    || c == '\U{00A0}' || c == '\U{1680}' || ('\U{2000}' <= c <= '\U{200A}') || c == '\U{2028}' || c == '\U{2029}'
    || c == '\U{202F}' || c == '\U{205F}' || c == '\U{3000}' || c == '\U{FEFF}'
  }

  /** s.trim() is the empty string. */
  predicate IsBlank(s: string)
  {
    forall i :: 0 <= i < |s| ==> IsJsWhitespace(s[i])
  }

  const TitleError: string := "Event title is required."
  const TagError: string := "Cash App $Tag is required."

  predicate TitleRejected(c: RegistrationConfig)
  {
    IsBlank(c.title) || c.title == "Untitled Event" || c.title == "New Gathering"
  }

  /** errors (lines 67-72): one message for a missing or placeholder title, one for a missing tag. */
  function Errors(c: RegistrationConfig): (errs: seq<string>)
    ensures |errs| <= 2
    ensures errs == [] <==> !TitleRejected(c) && !IsBlank(c.cashAppTag)
    ensures TitleError in errs <==> TitleRejected(c)
    ensures TagError in errs <==> IsBlank(c.cashAppTag)
  {
    (if TitleRejected(c) then [TitleError] else []) + (if IsBlank(c.cashAppTag) then [TagError] else [])
  }

  /** The memo's own steps: an empty list and at most two pushes. */
  method CollectErrors(c: RegistrationConfig) returns (errs: seq<string>)
    ensures errs == Errors(c)
  {
    errs := [];
    if TitleRejected(c) {
      errs := errs + [TitleError];
    }
    if IsBlank(c.cashAppTag) {
      errs := errs + [TagError];
    }
  }

  /** The keys of a Partial<FormField> the builder sends: label, type or required. */
  datatype FieldPatch = FieldPatch(labelText: Option<string>, fieldType: Option<FieldType>, required: Option<bool>)

  /** { ...f, ...updates }. */
  function Patched(f: FormField, p: FieldPatch): (g: FormField)
    ensures g.id == f.id && g.options == f.options
    ensures p.labelText.None? ==> g.labelText == f.labelText
    ensures p.fieldType.None? ==> g.fieldType == f.fieldType
    ensures p.required.None? ==> g.required == f.required
  {
    FormField(
      f.id,
      if p.labelText.Some? then p.labelText.value else f.labelText,
      if p.fieldType.Some? then p.fieldType.value else f.fieldType,
      if p.required.Some? then p.required.value else f.required,
      f.options)
  }

  /** updateField's map (line 175). */
  function UpdateFields(fields: seq<FormField>, id: string, p: FieldPatch): (r: seq<FormField>)
    ensures |r| == |fields|
    ensures forall i :: 0 <= i < |fields| ==> r[i] == (if fields[i].id == id then Patched(fields[i], p) else fields[i])
  {
    if fields == [] then []
    else [if fields[0].id == id then Patched(fields[0], p) else fields[0]] + UpdateFields(fields[1..], id, p)
  }

  /** The tier edits' map (lines 376 and 383). */
  function UpdateTiers(tiers: seq<PriceOption>, id: string, labelText: Option<string>, price: Option<Price>): (r: seq<PriceOption>)
    ensures |r| == |tiers|
    ensures forall i :: 0 <= i < |tiers| ==> r[i].id == tiers[i].id
    ensures forall i :: 0 <= i < |tiers| && tiers[i].id != id ==> r[i] == tiers[i]
    ensures forall i :: 0 <= i < |tiers| && tiers[i].id == id ==>
      r[i].labelText == (if labelText.Some? then labelText.value else tiers[i].labelText)
      && r[i].price == (if price.Some? then price.value else tiers[i].price)
  {
    if tiers == [] then []
    else
      var t := tiers[0];
      var t' := if t.id == id then PriceOption(t.id, if labelText.Some? then labelText.value else t.labelText,
                                               if price.Some? then price.value else t.price)
                else t;
      [t'] + UpdateTiers(tiers[1..], id, labelText, price)
  }

  /** foodOptions.filter((_, i) => i !== idx). */
  function RemoveAt(foods: seq<string>, idx: nat): (r: seq<string>)
    ensures idx < |foods| ==> |r| == |foods| - 1
    ensures idx < |foods| ==> forall i :: 0 <= i < |r| ==> r[i] == (if i < idx then foods[i] else foods[i + 1])
    ensures idx >= |foods| ==> r == foods
  {
    if idx < |foods| then foods[..idx] + foods[idx + 1..] else foods
  }

  /** The food-option edit (lines 422-423): a copy of the array with one index assigned. */
  method WithChoice(foods: seq<string>, idx: nat, value: string) returns (next: seq<string>)
    requires idx < |foods|
    ensures |next| == |foods| && next[idx] == value
    ensures forall i :: 0 <= i < |foods| && i != idx ==> next[i] == foods[i]
  {
    var a := new string[|foods|](i requires 0 <= i < |foods| => foods[i]);
    a[idx] := value;
    next := a[..];
  }

  /** The new field of addField (lines 182-187). */
  function NewField(id: string): FormField
  {
    FormField(id, "", Text, false, None)
  }

  /** The edits the builder offers, each an onChange or onClick handler of lines 174-203 and 320-440. */
  datatype Edit =
    | SetTitle(title: string)
    | SetDescription(description: string)
    | SetCashAppTag(tag: string)
    | SetTemplate(template: TemplateType)
    | SetIncludeAllergies(includeAllergies: bool)
    | SetBasePrice(basePrice: Price)
    | ClearLogo
    | UpdateField(fieldId: string, patch: FieldPatch)
    | AddField(newFieldId: string)
    | RemoveField(removedFieldId: string)
    | AddTier(newTierId: string)
    | SetTierLabel(tierId: string, tierLabel: string)
    | SetTierPrice(pricedTierId: string, tierPrice: Price)
    | RemoveTier(removedTierId: string)
    | AddFood
    | RemoveFood(index: nat)

  /** removeField's filter (line 194). */
  function FieldOtherThan(id: string): FormField -> bool
  {
    (f: FormField) => f.id != id
  }

  /** The tier removal's filter (line 389). */
  function TierOtherThan(id: string): PriceOption -> bool
  {
    (o: PriceOption) => o.id != id
  }

  /** The configuration an edit produces; no edit changes the id, so a save lands on the same entry. */
  function Apply(c: RegistrationConfig, e: Edit): (r: RegistrationConfig)
    ensures r.id == c.id
  {
    match e
    case SetTitle(t) => c.(title := t)
    case SetDescription(d) => c.(description := d)
    case SetCashAppTag(t) => c.(cashAppTag := t)
    case SetTemplate(t) => c.(template := t)
    case SetIncludeAllergies(b) => c.(includeAllergies := b)
    case SetBasePrice(p) => c.(price := p)
    case ClearLogo => c.(logoUrl := Some(""))
    case UpdateField(id, p) => c.(fields := UpdateFields(c.fields, id, p))
    case AddField(id) => c.(fields := c.fields + [NewField(id)])
    case RemoveField(id) => c.(fields := Filter(c.fields, FieldOtherThan(id)))
    case AddTier(id) => c.(priceOptions := c.priceOptions + [PriceOption(id, "", 0.0)])
    case SetTierLabel(id, l) => c.(priceOptions := UpdateTiers(c.priceOptions, id, Some(l), None))
    case SetTierPrice(id, p) => c.(priceOptions := UpdateTiers(c.priceOptions, id, None, Some(p)))
    case RemoveTier(id) => c.(priceOptions := Filter(c.priceOptions, TierOtherThan(id)))
    case AddFood => c.(foodOptions := c.foodOptions + [""])
    case RemoveFood(idx) => c.(foodOptions := RemoveAt(c.foodOptions, idx))
  }

  /** updateField changes only the fields with that id, merging the patch over them; count, order and ids stay. */
  lemma UpdateFieldTouchesOnlyThatField(c: RegistrationConfig, id: string, p: FieldPatch)
    ensures var r := Apply(c, UpdateField(id, p));
      r.(fields := c.fields) == c
      && |r.fields| == |c.fields|
      && (forall i :: 0 <= i < |c.fields| ==> r.fields[i].id == c.fields[i].id)
      && (forall i :: 0 <= i < |c.fields| && c.fields[i].id != id ==> r.fields[i] == c.fields[i])
  {
  }

  /** addField appends exactly one empty, optional text field. */
  lemma AddFieldAppends(c: RegistrationConfig, id: string)
    ensures var r := Apply(c, AddField(id));
      r.(fields := c.fields) == c && r.fields == c.fields + [FormField(id, "", Text, false, None)]
  {
  }

  /** removeField on a field whose id is unique drops exactly that field and keeps the others in order. */
  lemma {:induction false} RemoveFieldKeepsOthers(c: RegistrationConfig, before: seq<FormField>, f: FormField, after: seq<FormField>)
    requires c.fields == before + [f] + after
    requires forall i :: 0 <= i < |before| ==> before[i].id != f.id
    requires forall i :: 0 <= i < |after| ==> after[i].id != f.id
    ensures Apply(c, RemoveField(f.id)) == c.(fields := before + after)
  {
    var keep := FieldOtherThan(f.id);
    assert forall i :: 0 <= i < |before| ==> keep(before[i]);
    assert forall i :: 0 <= i < |after| ==> keep(after[i]);
    FilterDropsOne(before, f, after, keep);
    assert Apply(c, RemoveField(f.id)).fields == Filter(c.fields, keep);
  }

  /** removeField leaves no field with the id and keeps every other field. */
  lemma RemoveFieldFilters(c: RegistrationConfig, id: string)
    ensures forall f :: f in Apply(c, RemoveField(id)).fields <==> f in c.fields && f.id != id
  {
    var r := Apply(c, RemoveField(id)).fields;
    forall f | f in r ensures f in c.fields && f.id != id {
      var i :| 0 <= i < |r| && r[i] == f;
    }
    forall f | f in c.fields && f.id != id ensures f in r {
      var i :| 0 <= i < |c.fields| && c.fields[i] == f;
    }
  }

  /** Removing a menu choice drops exactly that index and shifts the later ones down. */
  lemma RemoveFoodDropsIndex(c: RegistrationConfig, idx: nat)
    requires idx < |c.foodOptions|
    ensures var r := Apply(c, RemoveFood(idx));
      r.(foodOptions := c.foodOptions) == c
      && r.foodOptions == c.foodOptions[..idx] + c.foodOptions[idx + 1..]
  {
  }

  /** Renaming a tier touches only the tiers with that id. */
  lemma TierLabelTouchesOnlyThatTier(c: RegistrationConfig, id: string, l: string)
    ensures Apply(c, SetTierLabel(id, l)).(priceOptions := c.priceOptions) == c
    ensures var r := Apply(c, SetTierLabel(id, l)).priceOptions;
      |r| == |c.priceOptions|
      && forall i :: 0 <= i < |c.priceOptions| ==>
           r[i] == (if c.priceOptions[i].id == id then c.priceOptions[i].(labelText := l) else c.priceOptions[i])
  {
  }

  /** Repricing a tier touches only the tiers with that id. */
  lemma TierPriceTouchesOnlyThatTier(c: RegistrationConfig, id: string, price: Price)
    ensures Apply(c, SetTierPrice(id, price)).(priceOptions := c.priceOptions) == c
    ensures var r := Apply(c, SetTierPrice(id, price)).priceOptions;
      |r| == |c.priceOptions|
      && forall i :: 0 <= i < |c.priceOptions| ==>
           r[i] == (if c.priceOptions[i].id == id then c.priceOptions[i].(price := price) else c.priceOptions[i])
  {
  }

  /** Removing a tier keeps exactly the tiers with other ids. */
  lemma RemoveTierKeepsOthers(c: RegistrationConfig, id: string)
    ensures Apply(c, RemoveTier(id)).(priceOptions := c.priceOptions) == c
    ensures forall o :: o in Apply(c, RemoveTier(id)).priceOptions <==> o in c.priceOptions && o.id != id
  {
    var r := Apply(c, RemoveTier(id)).priceOptions;
    forall o | o in r ensures o in c.priceOptions && o.id != id {
      var i :| 0 <= i < |r| && r[i] == o;
    }
    forall o | o in c.priceOptions && o.id != id ensures o in r {
      var i :| 0 <= i < |c.priceOptions| && c.priceOptions[i] == o;
    }
  }

  /** getUniversalLink's payload (lines 154-155): the local config, its logo blanked when includeLogo is false. */
  function Portable(c: RegistrationConfig, includeLogo: bool): (p: RegistrationConfig)
    ensures p.(logoUrl := c.logoUrl) == c
    ensures includeLogo ==> p == c
    ensures !includeLogo ==> p.logoUrl == Some("")
  {
    if includeLogo then c else c.(logoUrl := Some(""))
  }

  /** The ?data= query of getUniversalLink (line 156). */
  function UniversalQuery(c: RegistrationConfig, includeLogo: bool, j: Codec): string
  {
    "?data=" + UriCodec.EncodeURIComponent(ToBase64(j.stringify(Portable(c, includeLogo))))
  }

  /** getUniversalLink; base is window.location.origin + pathname. */
  function UniversalLink(base: string, c: RegistrationConfig, includeLogo: bool, j: Codec): string
  {
    base + UniversalQuery(c, includeLogo, j)
  }

  /** getQuickLink (lines 160-162). */
  function QuickLink(base: string, c: RegistrationConfig): string
  {
    base + "?event=" + c.id
  }

  /** Encoding only non-empty byte strings gives a non-empty token. */
  lemma EncodingNonEmpty(bs: seq<Utf8.byte>)
    requires bs != []
    ensures Base64.Encode(bs) != []
  {
    Base64.UnpaddedLength(bs);
    Base64.DigitCountMod(|bs|);
  }

  /** encodeURIComponent never writes a '&', so its output stays one query value. */
  lemma EncodedHasNoAmpersand(s: string)
    ensures forall i :: 0 <= i < |UriCodec.EncodeURIComponent(s)| ==> UriCodec.EncodeURIComponent(s)[i] != '&'
  {
    UriCodec.EncodedIsPlain(s);
  }

  /** A query of one name=value pair, the name needing no decoding, reads as that name and the decoded value. */
  lemma QueryOfOnePair(name: string, value: string)
    requires forall i :: 0 <= i < |name| ==> name[i] != '&' && name[i] != '=' && name[i] != '%' && name[i] != '+'
    requires forall i :: 0 <= i < |value| ==> value[i] != '&'
    ensures SearchParams.Parse("?" + name + "=" + value) == [SearchParams.Param(name, SearchParams.FormDecode(value))]
  {
    SearchParams.ParseSingle(name, value);
    SearchParams.FormDecodePlain(name);
  }

  /** A data pair whose value went through encodeURIComponent reads back as the value itself. */
  lemma EscapedPairReadsBack(q: string, v: string)
    requires q == "?data=" + UriCodec.EncodeURIComponent(v)
    ensures SearchParams.Parse(q) == [SearchParams.Param("data", v)]
  {
    var token := UriCodec.EncodeURIComponent(v);
    assert "?" + "data" + "=" == "?data=";
    EncodedHasNoAmpersand(v);
    QueryOfOnePair("data", token);
    SearchParams.FormDecodeOfEncoded(v);
  }

  /** The URLSearchParams reading of a universal link is the base 64 token itself. */
  lemma UniversalQueryReadsToken(c: RegistrationConfig, includeLogo: bool, j: Codec)
    ensures SearchParams.Parse(UniversalQuery(c, includeLogo, j))
         == [SearchParams.Param("data", ToBase64(j.stringify(Portable(c, includeLogo))))]
  {
    EscapedPairReadsBack(UniversalQuery(c, includeLogo, j), ToBase64(j.stringify(Portable(c, includeLogo))));
  }

  /** The app reads back as that config the link payload of a config the codec reads back. */
  lemma ReadLinkOfPayload(p: RegistrationConfig, j: Codec)
    requires ReadsBack(j, p) && p.id != []
    ensures App.ReadLink(ToBase64(j.stringify(p)), j) == App.Accepted(p)
  {
    var text := j.stringify(p);
    var b64 := ToBase64(text);
    ToBase64IsEncoding(text);
    Base64.EncodedAlphabet(Utf8.Encode(text));
    UriCodec.DecodeWithoutEscapes(b64);
    LinkRoundTrip(text);
  }

  /** A data parameter the app accepts is stored (appended or replacing its namesake) and selected, and opens the form. */
  lemma AcceptedLinkOpens(params: seq<SearchParams.Param>, stored: Blob<RegistrationConfig>, j: Codec, p: RegistrationConfig)
    requires SearchParams.Get(params, "data").Some?
    requires App.ReadLink(SearchParams.Get(params, "data").value, j) == App.Accepted(p)
    ensures var r := App.Resolve(params, stored, j);
      r.Started? && r.state.selected == Some(p.id) && r.state.view == App.Public
      && App.Find(r.state.configs, p.id) == Some(p)
      && r.state.written == Some(r.state.configs)
  {
    var current := StoredConfigs(stored);
    var k := App.FindIndex(current, p.id);
    var merged := if k == -1 then current + [p] else current[k := p];
    if k == -1 {
      App.HydrateAppends(params, stored, j, p);
      FoundAt(merged, p, |current|);
    } else {
      App.HydrateReplaces(params, stored, j, p);
      FoundAt(merged, p, k);
    }
  }

  lemma FoundAt(configs: seq<RegistrationConfig>, p: RegistrationConfig, k: nat)
    requires k < |configs| && configs[k] == p
    requires forall i :: 0 <= i < k ==> configs[i].id != p.id
    ensures App.Find(configs, p.id) == Some(p)
  {
    assert App.FindIndex(configs, p.id) == k;
  }

  /**
   * Opening a universal link hydrates its config: whatever the store held, the
   * mount selects the payload, opens the public form on it and stores it.
   */
  lemma UniversalLinkLoads(c: RegistrationConfig, includeLogo: bool, stored: Blob<RegistrationConfig>, j: Codec)
    requires ReadsBack(j, Portable(c, includeLogo)) && c.id != []
    ensures var r := App.Resolve(SearchParams.Parse(UniversalQuery(c, includeLogo, j)), stored, j);
      r.Started? && r.state.selected == Some(c.id) && r.state.view == App.Public
      && App.Find(r.state.configs, c.id) == Some(Portable(c, includeLogo))
      && r.state.written == Some(r.state.configs)
  {
    var p := Portable(c, includeLogo);
    var b64 := ToBase64(j.stringify(p));
    var params := SearchParams.Parse(UniversalQuery(c, includeLogo, j));
    UniversalQueryReadsToken(c, includeLogo, j);
    SearchParams.GetIsFirst(params, "data", 0);
    ReadLinkOfPayload(p, j);
    AcceptedLinkOpens(params, stored, j, p);
  }

  /** The two universal links differ only in the payload's logo. */
  lemma LinksDifferOnlyInLogo(c: RegistrationConfig, j: Codec)
    ensures Portable(c, false) == Portable(c, true).(logoUrl := Some(""))
    ensures UniversalQuery(c, false, j) == "?data=" + UriCodec.EncodeURIComponent(ToBase64(j.stringify(c.(logoUrl := Some("")))))
  {
  }

  /** The ids the builder makes (base-36 digits) and the seed's id read back unchanged from a quick link. */
  predicate PlainId(id: string)
  {
    id != [] && forall i :: 0 <= i < |id| ==> UriCodec.IsUnreserved(id[i])
  }

  /** An id made of unreserved characters holds none of the characters the query syntax gives a meaning to. */
  lemma PlainIdNeedsNoEscape(id: string)
    requires PlainId(id)
    ensures forall i :: 0 <= i < |id| ==> id[i] != '&' && id[i] != '%' && id[i] != '+'
  {
    forall i | 0 <= i < |id| ensures id[i] != '&' && id[i] != '%' && id[i] != '+' {
      assert UriCodec.IsUnreserved(id[i]);
    }
  }

  /** A quick link's query reads as the one pair event=id. */
  lemma QuickQueryReadsId(id: string)
    requires PlainId(id)
    ensures SearchParams.Parse("?event=" + id) == [SearchParams.Param("event", id)]
  {
    PlainIdNeedsNoEscape(id);
    assert "?" + "event" + "=" == "?event=";
    QueryOfOnePair("event", id);
    SearchParams.FormDecodePlain(id);
  }

  /**
   * On an empty store a quick link does not say "Registration Unavailable": the
   * event lookup finds nothing, the seed is written and selected, and its form shows
   * whatever id the link names.
   */
  lemma QuickLinkOnEmptyStore(id: string, stored: Blob<RegistrationConfig>, j: Codec)
    requires PlainId(id)
    requires StoredConfigs(stored) == []
    ensures var r := App.Resolve(SearchParams.Parse("?event=" + id), stored, j);
      r.Started?
      && r.state.configs == [App.Seed] && r.state.selected == Some("default-1")
      && App.ScreenOf(false, r.state.configs, r.state.selected, r.state.view, true) == App.Form(App.Seed)
  {
    QuickQueryReadsId(id);
    var params := SearchParams.Parse("?event=" + id);
    SearchParams.GetIsFirst(params, "event", 0);
    App.SeedsEmptyStore(params, stored, j);
  }

  /** Opening a quick link selects and shows its event exactly when the store holds it; otherwise the form is unavailable. */
  lemma QuickLinkLoads(c: RegistrationConfig, stored: Blob<RegistrationConfig>, j: Codec)
    requires PlainId(c.id)
    requires StoredConfigs(stored) != []
    ensures var r := App.Resolve(SearchParams.Parse("?event=" + c.id), stored, j);
      r.Started?
      && (App.Find(StoredConfigs(stored), c.id).Some? ==> r.state.selected == Some(c.id) && r.state.view == App.Public)
      && (App.Find(StoredConfigs(stored), c.id).None? ==>
            App.ScreenOf(false, r.state.configs, r.state.selected, r.state.view, true) == App.Unavailable)
  {
    var id := c.id;
    QuickQueryReadsId(id);
    var params := SearchParams.Parse("?event=" + id);
    SearchParams.GetIsFirst(params, "event", 0);
    App.EventLookup(params, stored, j, id);
  }

  /** The submissions tab (lines 62-65): the stored records for the active id, in stored order; None where JSON.parse throws. */
  function SubmissionsFor(b: Blob<Submission>, activeId: Option<string>): (r: Option<seq<Submission>>)
    ensures r.None? <==> b.Unparsable?
    ensures r.Some? ==> forall i :: 0 <= i < |r.value| ==> Some(r.value[i].configId) == activeId
  {
    match StoredSubmissions(b)
    case None => None
    case Some(all) => Some(Filter(all, BelongsTo(activeId)))
  }

  /** The submissions tab's filter: a record belongs to the active event. */
  function BelongsTo(activeId: Option<string>): Submission -> bool
  {
    (s: Submission) => Some(s.configId) == activeId
  }

  /**
   * Submissions are kept apart per event: after a guest submits the form of one
   * event, that event's list gains the record at its end and every other
   * event's list is unchanged.
   */
  lemma SubmitShowsOnlyUnderItsEvent(config: RegistrationConfig, stored: seq<Submission>, s: Submission, activeId: Option<string>)
    requires s.configId == config.id
    ensures SubmissionsFor(Holds(stored + [s]), activeId)
         == Some(SubmissionsFor(Holds(stored), activeId).value + (if activeId == Some(config.id) then [s] else []))
  {
    var keep := BelongsTo(activeId);
    FilterAppend(stored, [s], keep);
    assert [s][1..] == [];
    assert keep(s) <==> activeId == Some(config.id);
    assert Filter([s], keep) == (if activeId == Some(config.id) then [s] else []);
    assert SubmissionsFor(Holds(stored + [s]), activeId) == Some(Filter(stored + [s], keep));
  }

  /** The event a builder starts from when nothing is selected (lines 32-45); id stands for the random id. */
  function NewEvent(id: string): RegistrationConfig
  {
    RegistrationConfig(id, "New Event", "", Some(""), 0.0, [], [], false, "", Corporate,
      [FormField("1", "Full Name", Text, true, None)], Some(""))
  }

  /** The event "+ Create Event" saves (lines 225-238). */
  function NewGathering(id: string): RegistrationConfig
  {
    RegistrationConfig(id, "New Gathering", "", Some(""), 0.0, [], [], false, "", Corporate,
      [FormField("1", "Full Name", Text, true, None)], None)
  }

  /** A freshly created event carries both errors until it gets a title and a tag; the starting one only lacks the tag. */
  lemma FreshEventsNeedDetails(id: string)
    ensures Errors(NewGathering(id)) == [TitleError, TagError]
    ensures Errors(NewEvent(id)) == [TagError]
  {
    assert !IsBlank("New Event") by { assert !IsJsWhitespace("New Event"[0]); }
  }

  datatype SaveStatus = Idle | Saving | Saved | Failed

  /** The builder's own state: the local copy being edited and the save indicator. */
  class Builder {
    var local: RegistrationConfig
    var saveStatus: SaveStatus
    const app: App.State

    /** The first render; freshId stands for the random id of the fallback event. */
    constructor(app: App.State, freshId: string)
      ensures this.app == app && saveStatus == Idle
      ensures local == (match App.FindSelected(app.configs, app.selected)
                        case Some(c) => c
                        case None => NewEvent(freshId))
    {
      this.app := app;
      saveStatus := Idle;
      var found := App.FindSelected(app.configs, app.selected);
      local := if found.Some? then found.value else NewEvent(freshId);
    }

    /** The sync effect (lines 48-52): the local copy follows the selected saved config when there is one. */
    method Sync()
      modifies this
      ensures local == (match App.FindSelected(app.configs, app.selected)
                        case Some(c) => c
                        case None => old(local))
      ensures saveStatus == old(saveStatus)
    {
      var found := App.FindSelected(app.configs, app.selected);
      if found.Some? {
        local := found.value;
      }
    }

    /** An edit handler: the edited copy becomes the local config and goes to saveConfig. */
    method Change(e: Edit, fits: bool)
      modifies this, app, app.storage
      ensures local == Apply(old(local), e)
      ensures app.configs == App.Upsert(old(app.configs), local)
      ensures app.storage.configs == (if fits then Holds(app.configs) else old(app.storage.configs))
      ensures app.selected == old(app.selected) && saveStatus == old(saveStatus)
      ensures app.view == old(app.view) && app.message == old(app.message) && app.crashed == old(app.crashed)
      ensures app.storage.submissions == old(app.storage.submissions)
    {
      local := Apply(local, e);
      var _ := app.SaveConfig(local, fits);
    }

    /** The menu-choice text input (lines 421-427). */
    method ChangeFood(idx: nat, value: string, fits: bool)
      requires idx < |local.foodOptions|
      modifies this, app, app.storage
      ensures local.(foodOptions := old(local).foodOptions) == old(local)
      ensures local.foodOptions == old(local).foodOptions[idx := value]
      ensures app.configs == App.Upsert(old(app.configs), local)
      ensures app.storage.configs == (if fits then Holds(app.configs) else old(app.storage.configs))
      ensures app.selected == old(app.selected) && saveStatus == old(saveStatus)
      ensures app.view == old(app.view) && app.message == old(app.message) && app.crashed == old(app.crashed)
      ensures app.storage.submissions == old(app.storage.submissions)
    {
      var nextFood := WithChoice(local.foodOptions, idx, value);
      assert nextFood == local.foodOptions[idx := value];
      local := local.(foodOptions := nextFood);
      var _ := app.SaveConfig(local, fits);
    }

    /** handleManualSave (lines 112-125): nothing is saved while there are errors. */
    method HandleManualSave(fits: bool) returns (saved: bool)
      modifies this, app, app.storage
      ensures local == old(local)
      ensures Errors(local) != [] ==>
        !saved && app.configs == old(app.configs) && app.storage.configs == old(app.storage.configs)
        && saveStatus == old(saveStatus)
      ensures Errors(local) == [] ==>
        saved == fits && app.configs == App.Upsert(old(app.configs), local)
        && app.storage.configs == (if fits then Holds(app.configs) else old(app.storage.configs))
        && saveStatus == (if fits then Saved else Failed)
      ensures app.selected == old(app.selected)
      ensures app.view == old(app.view) && app.message == old(app.message) && app.crashed == old(app.crashed)
      ensures app.storage.submissions == old(app.storage.submissions)
    {
      if Errors(local) != [] {
        saved := false;
        return;
      }
      saveStatus := Saving;
      saved := app.SaveConfig(local, fits);
      saveStatus := if saved then Saved else Failed;
    }

    /**
     * handleLogoUpload (lines 74-110) with the read completing at once: a file
     * over 1 MiB is refused, a failed read returns to idle, a read image is set
     * as the logo and saved from inside the state updater. A quota error thrown
     * there does not reach the handler's catch, so the status is set to saved
     * whatever the write did.
     */
    method LogoUpload(size: nat, readOk: bool, dataUrl: string, fits: bool)
      modifies this, app, app.storage
      ensures size > 1024 * 1024 ==>
        (local == old(local) && saveStatus == old(saveStatus)
         && app.configs == old(app.configs) && app.storage.configs == old(app.storage.configs))
      ensures size <= 1024 * 1024 && !readOk ==>
        (local == old(local) && saveStatus == Idle
         && app.configs == old(app.configs) && app.storage.configs == old(app.storage.configs))
      ensures size <= 1024 * 1024 && readOk ==>
        local == old(local).(logoUrl := Some(dataUrl)) && app.configs == App.Upsert(old(app.configs), local)
        && app.storage.configs == (if fits then Holds(app.configs) else old(app.storage.configs))
      ensures size <= 1024 * 1024 && readOk && fits ==> saveStatus == Saved
      ensures app.selected == old(app.selected)
      ensures app.view == old(app.view) && app.message == old(app.message) && app.crashed == old(app.crashed)
      ensures app.storage.submissions == old(app.storage.submissions)
    {
      if size > 1024 * 1024 {
        return;
      }
      saveStatus := Saving;
      if !readOk {
        saveStatus := Idle;
        return;
      }
      local := local.(logoUrl := Some(dataUrl));
      var _ := app.SaveConfig(local, fits);
      saveStatus := Saved;
    }

    /** "+ Create Event" (lines 224-242): the new event is saved, then selected unless the save threw. */
    method CreateEvent(newId: string, fits: bool)
      modifies app, app.storage
      ensures app.configs == App.Upsert(old(app.configs), NewGathering(newId))
      ensures app.storage.configs == (if fits then Holds(app.configs) else old(app.storage.configs))
      ensures app.selected == (if fits then Some(newId) else old(app.selected))
      ensures app.view == old(app.view) && app.message == old(app.message) && app.crashed == old(app.crashed)
      ensures app.storage.submissions == old(app.storage.submissions)
    {
      var ok := app.SaveConfig(NewGathering(newId), fits);
      if ok {
        app.Select(newId);
      }
    }

    /** "Delete Event" (line 286): deleteConfig on the local config's id. */
    method Delete(fits: bool)
      modifies app, app.storage
      ensures app.configs == App.Remove(old(app.configs), local.id)
      ensures app.storage.configs == (if fits then Holds(app.configs) else old(app.storage.configs))
      ensures app.selected == (if fits && old(app.selected) == Some(local.id) then App.FirstId(app.configs) else old(app.selected))
      ensures app.view == old(app.view) && app.message == old(app.message) && app.crashed == old(app.crashed)
      ensures app.storage.submissions == old(app.storage.submissions)
    {
      var _ := app.DeleteConfig(local.id, fits);
    }
  }

  /** An edit's save makes the saved list hold the edited copy, so the sync effect that follows keeps the edit. */
  lemma EditSurvivesSync(configs: seq<RegistrationConfig>, local: RegistrationConfig, e: Edit)
    ensures App.Find(App.Upsert(configs, Apply(local, e)), local.id) == Some(Apply(local, e))
  {
    App.FindAfterUpsert(configs, Apply(local, e), local.id);
  }
}
