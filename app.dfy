/**
 * App.tsx: the application shell. At mount it reads the stored configurations,
 * resolves the query string (a portable `data` link or an `event` id), seeds a
 * default event into an empty list and settles the selection; afterwards it holds
 * the list, the selection and the view, and saves and deletes configurations on
 * the dashboard's behalf.
 */
module App {
  import opened Types
  import opened Json
  import opened Storage
  import opened Lists
  import Utf8
  import Base64
  import UriCodec
  import SearchParams

  datatype View = Admin | Public

  /** What the page shows. */
  datatype Screen = Blank | Dashboard | Form(config: RegistrationConfig) | Unavailable

  /** bytes[i] = binary.charCodeAt(i) stored into a Uint8Array, which keeps the code modulo 256. */
  function ToBytes(binary: string): (bs: seq<Utf8.byte>)
    ensures |bs| == |binary|
    ensures forall i :: 0 <= i < |binary| ==> bs[i] == binary[i] as int % 0x100
  {
    seq(|binary|, i requires 0 <= i < |binary| => binary[i] as int % 0x100)
  }

  /** The copying loop of fromBase64 (lines 10-13), over a Uint8Array. */
  method CharCodesToBytes(binary: string) returns (bytes: seq<Utf8.byte>)
    ensures bytes == ToBytes(binary)
  {
    var a := new Utf8.byte[|binary|];
    var i := 0;
    while i < |binary|
      invariant 0 <= i <= |binary|
      invariant forall k :: 0 <= k < i ==> a[k] == binary[k] as int % 0x100
    {
      a[i] := binary[i] as int % 0x100;
      i := i + 1;
    }
    bytes := a[..];
  }

  /** Reading a binary string back into bytes recovers the bytes it was made of. */
  lemma ToBytesOfLatin1(bs: seq<Utf8.byte>)
    ensures ToBytes(Base64.Latin1(bs)) == bs
  {
  }

  /** fromBase64: atob, the bytes of the character codes, then TextDecoder; None is the null returned when atob throws. */
  function FromBase64(b64: string): (r: Option<string>)
    ensures r.None? <==> Base64.Atob(b64).None?
  {
    match Base64.Atob(b64)
    case None => None
    case Some(binary) => Some(Utf8.TextDecode(ToBytes(binary)))
  }

  /** Whatever the bytes, fromBase64 of their encoding is their TextDecoder reading. */
  lemma FromBase64OfEncoding(bs: seq<Utf8.byte>)
    ensures FromBase64(Base64.Encode(bs)) == Some(Utf8.TextDecode(bs))
  {
    Base64.DecodeEncode(bs);
    ToBytesOfLatin1(bs);
  }

  /** isGuestMode: the query names a `data` or an `event` parameter, whatever their values. */
  function IsGuestMode(params: seq<SearchParams.Param>): (guest: bool)
    ensures guest <==> exists i :: 0 <= i < |params| && (params[i].name == "data" || params[i].name == "event")
  {
    SearchParams.Has(params, "data") || SearchParams.Has(params, "event")
  }

  /** What a non-empty `data` parameter leads to. */
  datatype LinkResult =
    | Throws                               // decodeURIComponent threw outside any try
    | Ignored                              // atob failed, the text was empty, JSON.parse failed or gave no id
    | Accepted(config: RegistrationConfig)

  /** Lines 50-54: decodeURIComponent, fromBase64, JSON.parse and the check for a truthy id. */
  function ReadLink(data: string, j: Codec): (r: LinkResult)
    ensures r.Throws? <==> UriCodec.DecodeURIComponent(data).None?
    ensures r.Accepted? ==> r.config.id != []
  {
    match UriCodec.DecodeURIComponent(data)
    case None => Throws
    case Some(b64) =>
      match FromBase64(b64)
      case None => Ignored
      case Some(text) =>
        if text == [] then Ignored
        else
          match j.parse(text)
          case AConfig(c) => if c.id != [] then Accepted(c) else Ignored
          case _ => Ignored
  }

  /** configs.findIndex(c => c.id === id): the first position holding the id, or -1. */
  function FindIndex(configs: seq<RegistrationConfig>, id: string): (k: int)
    ensures -1 <= k < |configs|
    ensures k == -1 <==> forall i :: 0 <= i < |configs| ==> configs[i].id != id
    ensures k >= 0 ==> configs[k].id == id && forall i :: 0 <= i < k ==> configs[i].id != id
  {
    if configs == [] then -1
    else if configs[0].id == id then 0
    else
      var k := FindIndex(configs[1..], id);
      if k == -1 then -1 else k + 1
  }

  /** configs.find(c => c.id === id). */
  function Find(configs: seq<RegistrationConfig>, id: string): (r: Option<RegistrationConfig>)
    ensures r.None? <==> forall i :: 0 <= i < |configs| ==> configs[i].id != id
    ensures r.Some? ==> r.value.id == id && r.value in configs
  {
    var k := FindIndex(configs, id);
    if k == -1 then None else Some(configs[k])
  }

  /** configs.find(c => c.id === selectedConfigId), where a null selection matches nothing. */
  function FindSelected(configs: seq<RegistrationConfig>, selected: Option<string>): Option<RegistrationConfig>
  {
    if selected.None? then None else Find(configs, selected.value)
  }

  /** The configuration an empty store is seeded with (lines 86-101). */
  const Seed: RegistrationConfig := RegistrationConfig(
    "default-1",
    "Grace & Fellowship Gathering",
    "Join us for a meaningful time of worship and connection.",
    None,
    0.0,
    [],
    [],
    true,
    "BNRMinistry",
    BiblicalSpiritual,
    [FormField("1", "Full Name", Text, true, None), FormField("2", "Email Address", Email, true, None)],
    Some("Iron sharpens iron, and one person sharpens another. Join our fellowship as we grow together in His grace."))

  function LoadedMessage(title: string): string
  {
    "Event \"" + title + "\" loaded!"
  }

  /** The state the mount effect leaves, and the list it wrote to storage, if any. */
  datatype Mounted = Mounted(
    configs: seq<RegistrationConfig>,
    selected: Option<string>,
    view: View,
    message: Option<string>,
    written: Option<seq<RegistrationConfig>>)

  datatype Startup = Crashed | Started(state: Mounted)

  /**
   * Lines 83-109: the list is stored; an empty one is replaced by the seed, which
   * is written and selected; otherwise outside guest mode the first entry is
   * selected. The selection the effect tests there is the initial null, so
   * earlier choices do not count.
   */
  function Settle(configs: seq<RegistrationConfig>, selected: Option<string>, view: View,
                  message: Option<string>, written: Option<seq<RegistrationConfig>>, guest: bool): Mounted
  {
    if configs == [] then Mounted([Seed], Some(Seed.id), view, message, Some([Seed]))
    else if !guest then Mounted(configs, Some(configs[0].id), view, message, written)
    else Mounted(configs, selected, view, message, written)
  }

  /**
   * The mount effect (lines 33-110) as a function of the query, the stored list
   * and the JSON codec. A selection always names a stored configuration, and the
   * public view always has a selection.
   */
  function Resolve(params: seq<SearchParams.Param>, stored: Blob<RegistrationConfig>, j: Codec): (r: Startup)
    ensures r.Started? ==> r.state.configs != []
    ensures r.Started? && r.state.selected.Some? ==> Find(r.state.configs, r.state.selected.value).Some?
    ensures r.Started? && r.state.view == Public ==> r.state.selected.Some?
  {
    var current := StoredConfigs(stored);
    var guest := IsGuestMode(params);
    var data := SearchParams.Get(params, "data");
    var event := SearchParams.Get(params, "event");
    if data.Some? && data.value != [] then
      match ReadLink(data.value, j)
      case Throws => Crashed
      case Ignored => Started(Settle(current, None, Admin, None, None, guest))
      case Accepted(c) =>
        var k := FindIndex(current, c.id);
        var merged := if k == -1 then current + [c] else current[k := c];
        assert merged[if k == -1 then |current| else k] == c;
        var message := if k == -1 then Some(LoadedMessage(c.title)) else None;
        Started(Settle(merged, Some(c.id), Public, message, Some(merged), guest))
    else if event.Some? && event.value != [] && Find(current, event.value).Some? then
      Started(Settle(current, event, Public, None, None, guest))
    else
      Started(Settle(current, None, Admin, None, None, guest))
  }

  /** The rendered page (lines 166-190): the dashboard only outside guest mode, else the selected form or "Registration Unavailable". */
  function ScreenOf(crashed: bool, configs: seq<RegistrationConfig>, selected: Option<string>, view: View, guest: bool): (s: Screen)
    ensures guest ==> s != Dashboard
    ensures s.Form? ==> s.config in configs
  {
    if crashed then Blank
    else if view == Admin && !guest then Dashboard
    else
      match FindSelected(configs, selected)
      case Some(c) => Form(c)
      case None => Unavailable
  }

  /** The hydration banner (line 159), shown only in the admin view. */
  function BannerOf(message: Option<string>, view: View): Option<string>
  {
    if view == Admin then message else None
  }

  /** saveConfig's replacement step: configs.map(c => c.id === updated.id ? updated : c). */
  function ReplaceById(configs: seq<RegistrationConfig>, updated: RegistrationConfig): (r: seq<RegistrationConfig>)
    ensures |r| == |configs|
    ensures forall i :: 0 <= i < |configs| ==> r[i] == (if configs[i].id == updated.id then updated else configs[i])
  {
    if configs == [] then []
    else [if configs[0].id == updated.id then updated else configs[0]] + ReplaceById(configs[1..], updated)
  }

  /** saveConfig's new list (lines 113-116): every entry with the id replaced when there is one, else the config appended. */
  function Upsert(configs: seq<RegistrationConfig>, updated: RegistrationConfig): seq<RegistrationConfig>
  {
    if Find(configs, updated.id).Some? then ReplaceById(configs, updated) else configs + [updated]
  }

  /** deleteConfig's new list (line 123). */
  function Remove(configs: seq<RegistrationConfig>, id: string): (r: seq<RegistrationConfig>)
    ensures |r| <= |configs|
    ensures forall i :: 0 <= i < |r| ==> r[i].id != id && r[i] in configs
    ensures forall c :: c in configs && c.id != id ==> c in r
  {
    Filter(configs, OtherThan(id))
  }

  /** deleteConfig's filter: the entries whose id is not the deleted one. */
  function OtherThan(id: string): RegistrationConfig -> bool
  {
    (c: RegistrationConfig) => c.id != id
  }

  /** newConfigs[0]?.id || null: the first id, unless the list is empty or that id is the empty string. */
  function FirstId(configs: seq<RegistrationConfig>): (r: Option<string>)
    ensures r.Some? ==> configs != [] && r.value == configs[0].id && r.value != []
    ensures r.None? ==> configs == [] || configs[0].id == []
  {
    if configs != [] && configs[0].id != [] then Some(configs[0].id) else None
  }

  /** The state App.tsx keeps with useState, and its handlers. */
  class State {
    var configs: seq<RegistrationConfig>
    var selected: Option<string>
    var view: View
    var message: Option<string>
    var crashed: bool
    const search: string
    const guest: bool := IsGuestMode(SearchParams.Parse(search))
    const storage: LocalStorage

    /** The first render: the initial useState values and the memoised guest flag (lines 22-31). */
    constructor(search: string, storage: LocalStorage)
      ensures this.search == search && this.storage == storage
      ensures guest == IsGuestMode(SearchParams.Parse(search))
      ensures configs == [] && selected == None && view == Admin && message == None && !crashed
    {
      this.search := search;
      this.storage := storage;
      configs := [];
      selected := None;
      view := Admin;
      message := None;
      crashed := false;
    }

    predicate Initial()
      reads this
    {
      configs == [] && selected == None && view == Admin && message == None && !crashed
    }

    /** What the page currently shows. */
    function Shown(): Screen
      reads this
    {
      ScreenOf(crashed, configs, selected, view, guest)
    }

    /**
     * The mount effect, step by step as lines 33-110 take it. A storage write
     * that does not fit is swallowed; fits says whether writes fit.
     */
    method Mount(j: Codec, fits: bool)
      requires Initial()
      modifies this, storage
      ensures var r := Resolve(SearchParams.Parse(search), old(storage.configs), j);
        && crashed == r.Crashed?
        && (r.Crashed? ==> configs == [] && selected == None && view == Admin && message == None
                           && storage.configs == old(storage.configs))
        && (r.Started? ==>
              configs == r.state.configs && selected == r.state.selected
              && view == r.state.view && message == r.state.message
              && storage.configs == (if fits && r.state.written.Some? then Holds(r.state.written.value)
                                     else old(storage.configs)))
      ensures storage.submissions == old(storage.submissions)
    {
      var current := StoredConfigs(storage.configs);
      var params := SearchParams.Parse(search);
      var portableData := SearchParams.Get(params, "data");
      var eventId := SearchParams.Get(params, "event");
      if portableData.Some? && portableData.value != [] {
        var link := ReadLink(portableData.value, j);
        if link.Throws? {
          crashed := true;
          return;
        }
        if link.Accepted? {
          var decoded := link.config;
          var existsIdx := FindIndex(current, decoded.id);
          if existsIdx == -1 {
            current := current + [decoded];
            var _ := storage.SetConfigs(current, fits);
            message := Some(LoadedMessage(decoded.title));
          } else {
            current := current[existsIdx := decoded];
            var _ := storage.SetConfigs(current, fits);
          }
          selected := Some(decoded.id);
          view := Public;
        }
      } else if eventId.Some? && eventId.value != [] {
        var found := Find(current, eventId.value);
        if found.Some? {
          selected := eventId;
          view := Public;
        }
      }
      configs := current;
      if current == [] {
        configs := [Seed];
        var _ := storage.SetConfigs([Seed], fits);
        selected := Some(Seed.id);
      } else if !guest {
        selected := Some(current[0].id);
      }
    }

    /**
     * saveConfig (lines 112-120). The list is updated first; the setItem after
     * it is unguarded, so when the list does not fit it throws to the caller
     * (ok is false) with storage unchanged.
     */
    method SaveConfig(updated: RegistrationConfig, fits: bool) returns (ok: bool)
      modifies this, storage
      ensures configs == Upsert(old(configs), updated)
      ensures ok == fits
      ensures storage.configs == (if fits then Holds(configs) else old(storage.configs))
      ensures storage.submissions == old(storage.submissions)
      ensures selected == old(selected) && view == old(view) && message == old(message) && crashed == old(crashed)
    {
      configs := Upsert(configs, updated);
      ok := storage.SetConfigs(configs, fits);
    }

    /**
     * deleteConfig (lines 122-127): the id is filtered out; when the write
     * throws the reselection after it is skipped, otherwise a deleted selection
     * moves to the new first id or to null.
     */
    method DeleteConfig(id: string, fits: bool) returns (ok: bool)
      modifies this, storage
      ensures configs == Remove(old(configs), id)
      ensures ok == fits
      ensures storage.configs == (if fits then Holds(configs) else old(storage.configs))
      ensures storage.submissions == old(storage.submissions)
      ensures selected == (if fits && old(selected) == Some(id) then FirstId(configs) else old(selected))
      ensures view == old(view) && message == old(message) && crashed == old(crashed)
    {
      configs := Remove(configs, id);
      ok := storage.SetConfigs(configs, fits);
      if ok && selected == Some(id) {
        selected := FirstId(configs);
      }
    }

    /** onSelect, the dashboard's setSelectedConfigId. */
    method Select(id: string)
      modifies this
      ensures selected == Some(id)
      ensures configs == old(configs) && view == old(view) && message == old(message) && crashed == old(crashed)
    {
      selected := Some(id);
    }

    /** The navigation buttons (lines 141-153), rendered only outside guest mode; LIVE FORM only while the selected id is truthy (non-empty). */
    method SetView(v: View)
      requires !guest
      requires v == Public ==> selected.Some? && selected.value != []
      modifies this
      ensures view == v
      ensures configs == old(configs) && selected == old(selected) && message == old(message) && crashed == old(crashed)
    {
      view := v;
    }
  }

  /** Replacing by id leaves the list's length and every other entry alone, and after it the id finds the new config. */
  lemma {:induction false} FindAfterUpsert(configs: seq<RegistrationConfig>, updated: RegistrationConfig, id: string)
    ensures Find(Upsert(configs, updated), id) == (if id == updated.id then Some(updated) else Find(configs, id))
  {
    var r := Upsert(configs, updated);
    if Find(configs, updated.id).Some? {
      var k := FindIndex(configs, id);
      if id == updated.id {
        assert r[k] == updated;
        assert FindIndex(r, id) == k;
      } else if k == -1 {
        assert forall i :: 0 <= i < |r| ==> r[i].id != id by {
          forall i | 0 <= i < |r| ensures r[i].id != id {
            assert r[i] == (if configs[i].id == updated.id then updated else configs[i]);
          }
        }
      } else {
        assert r[k] == configs[k];
        assert forall i :: 0 <= i < k ==> r[i].id != id by {
          forall i | 0 <= i < k ensures r[i].id != id {
            assert r[i] == (if configs[i].id == updated.id then updated else configs[i]);
          }
        }
        assert FindIndex(r, id) == k;
      }
    } else {
      if id == updated.id {
        assert r[|configs|] == updated;
        assert FindIndex(r, id) == |configs|;
      } else {
        var k := FindIndex(configs, id);
        if k >= 0 {
          assert r[k] == configs[k];
          assert FindIndex(r, id) == k;
        } else {
          assert forall i :: 0 <= i < |r| ==> r[i].id != id by {
            forall i | 0 <= i < |r| ensures r[i].id != id {
              if i < |configs| { assert r[i] == configs[i]; }
            }
          }
        }
      }
    }
  }

  /** saveConfig keeps length and order when the id is stored, and otherwise grows the list by the config at the end. */
  lemma UpsertShape(configs: seq<RegistrationConfig>, updated: RegistrationConfig)
    ensures Find(configs, updated.id).Some? ==>
      |Upsert(configs, updated)| == |configs|
      && forall i :: 0 <= i < |configs| && configs[i].id != updated.id ==> Upsert(configs, updated)[i] == configs[i]
    ensures Find(configs, updated.id).None? ==> Upsert(configs, updated) == configs + [updated]
  {
  }

  /** Saving the same config twice is saving it once. */
  lemma UpsertIdempotent(configs: seq<RegistrationConfig>, updated: RegistrationConfig)
    ensures Upsert(Upsert(configs, updated), updated) == Upsert(configs, updated)
  {
    var once := Upsert(configs, updated);
    FindAfterUpsert(configs, updated, updated.id);
    var twice := ReplaceById(once, updated);
    assert |twice| == |once|;
    forall i | 0 <= i < |once| ensures twice[i] == once[i] {
      if Find(configs, updated.id).Some? {
        assert once[i] == (if configs[i].id == updated.id then updated else configs[i]);
      } else if i < |configs| {
        assert once[i] == configs[i];
      }
    }
  }

  /** saveConfig keeps ids unique. */
  lemma UpsertKeepsIdsUnique(configs: seq<RegistrationConfig>, updated: RegistrationConfig)
    requires UniqueIds(configs)
    ensures UniqueIds(Upsert(configs, updated))
  {
    var r := Upsert(configs, updated);
    if Find(configs, updated.id).Some? {
      forall i, j | 0 <= i < j < |r| ensures r[i].id != r[j].id {
        assert r[i] == (if configs[i].id == updated.id then updated else configs[i]);
        assert r[j] == (if configs[j].id == updated.id then updated else configs[j]);
      }
    } else {
      forall i, j | 0 <= i < j < |r| ensures r[i].id != r[j].id {
        if j < |configs| {
          assert r[i] == configs[i] && r[j] == configs[j];
        } else {
          assert r[i] == configs[i] && r[j] == updated;
        }
      }
    }
  }

  /** find looks at the head first, then at the rest. */
  lemma FindCons(c: RegistrationConfig, rest: seq<RegistrationConfig>, id: string)
    ensures Find([c] + rest, id) == if c.id == id then Some(c) else Find(rest, id)
  {
    var xs := [c] + rest;
    assert xs[0] == c && xs[1..] == rest;
    if c.id != id {
      var k := FindIndex(rest, id);
      if k >= 0 { assert FindIndex(xs, id) == k + 1; }
    }
  }

  /** After deleteConfig the id is gone and every other id finds what it found before. */
  lemma {:induction false} FindAfterRemove(configs: seq<RegistrationConfig>, id: string, other: string)
    ensures Find(Remove(configs, id), other) == (if other == id then None else Find(configs, other))
  {
    var keep := OtherThan(id);
    var r := Remove(configs, id);
    if other == id {
      assert forall i :: 0 <= i < |r| ==> r[i].id != other by {
        forall i | 0 <= i < |r| ensures r[i].id != other {
          assert keep(r[i]);
        }
      }
    } else if configs != [] {
      var rest := configs[1..];
      assert configs == [configs[0]] + rest;
      FindAfterRemove(rest, id, other);
      FindCons(configs[0], rest, other);
      if configs[0].id == id {
        assert r == Remove(rest, id);
      } else {
        assert r == [configs[0]] + Remove(rest, id);
        FindCons(configs[0], Remove(rest, id), other);
      }
    }
  }

  /** On a list with unique ids, deleteConfig removes exactly the entry at the id's position. */
  lemma {:induction false} RemoveUnique(configs: seq<RegistrationConfig>, id: string)
    requires UniqueIds(configs)
    requires FindIndex(configs, id) >= 0
    ensures Remove(configs, id) == configs[..FindIndex(configs, id)] + configs[FindIndex(configs, id) + 1..]
  {
    var keep := OtherThan(id);
    var k := FindIndex(configs, id);
    var before, after := configs[..k], configs[k + 1..];
    assert configs == before + [configs[k]] + after;
    assert forall i :: 0 <= i < |before| ==> keep(before[i]) by {
      forall i | 0 <= i < |before| ensures keep(before[i]) {
        assert before[i] == configs[i];
      }
    }
    assert forall i :: 0 <= i < |after| ==> keep(after[i]) by {
      forall i | 0 <= i < |after| ensures keep(after[i]) {
        assert after[i] == configs[k + 1 + i];
      }
    }
    FilterDropsOne(before, configs[k], after, keep);
  }

  /** A decodeURIComponent that throws is the only way the mount crashes, and only a non-empty `data` parameter reaches it. */
  lemma ResolveCrashes(params: seq<SearchParams.Param>, stored: Blob<RegistrationConfig>, j: Codec)
    ensures Resolve(params, stored, j).Crashed? <==>
      var data := SearchParams.Get(params, "data");
      data.Some? && data.value != [] && UriCodec.DecodeURIComponent(data.value).None?
  {
  }

  /** A link to a config not yet stored appends it, keeps every earlier entry, selects it, opens the form and sets the banner text. */
  lemma HydrateAppends(params: seq<SearchParams.Param>, stored: Blob<RegistrationConfig>, j: Codec, c: RegistrationConfig)
    requires SearchParams.Get(params, "data").Some?
    requires ReadLink(SearchParams.Get(params, "data").value, j) == Accepted(c)
    requires Find(StoredConfigs(stored), c.id).None?
    ensures Resolve(params, stored, j) == Started(Mounted(
      StoredConfigs(stored) + [c], Some(c.id), Public, Some(LoadedMessage(c.title)), Some(StoredConfigs(stored) + [c])))
  {
    assert IsGuestMode(params);
  }

  /** A link to a stored config replaces it in place: same length, other entries unchanged, no banner. */
  lemma HydrateReplaces(params: seq<SearchParams.Param>, stored: Blob<RegistrationConfig>, j: Codec, c: RegistrationConfig)
    requires SearchParams.Get(params, "data").Some?
    requires ReadLink(SearchParams.Get(params, "data").value, j) == Accepted(c)
    requires FindIndex(StoredConfigs(stored), c.id) >= 0
    ensures var k := FindIndex(StoredConfigs(stored), c.id);
      Resolve(params, stored, j) == Started(Mounted(
        StoredConfigs(stored)[k := c], Some(c.id), Public, None, Some(StoredConfigs(stored)[k := c])))
  {
    assert IsGuestMode(params);
  }

  /** A link that is ignored changes nothing but what settling does: no write, no banner, no public view. */
  lemma IgnoredLinkKeepsState(params: seq<SearchParams.Param>, stored: Blob<RegistrationConfig>, j: Codec)
    requires SearchParams.Get(params, "data").Some? && SearchParams.Get(params, "data").value != []
    requires ReadLink(SearchParams.Get(params, "data").value, j) == Ignored
    requires StoredConfigs(stored) != []
    ensures Resolve(params, stored, j) == Started(Mounted(StoredConfigs(stored), None, Admin, None, None))
    ensures ScreenOf(false, StoredConfigs(stored), None, Admin, IsGuestMode(params)) == Unavailable
  {
    assert IsGuestMode(params);
  }

  /** Without a usable `data`, an `event` id selects and opens the form exactly when that id is stored. */
  lemma EventLookup(params: seq<SearchParams.Param>, stored: Blob<RegistrationConfig>, j: Codec, id: string)
    requires SearchParams.Get(params, "data").None? || SearchParams.Get(params, "data").value == []
    requires SearchParams.Get(params, "event") == Some(id) && id != []
    requires StoredConfigs(stored) != []
    ensures Resolve(params, stored, j).Started?
    ensures Resolve(params, stored, j).state.view == Public <==> Find(StoredConfigs(stored), id).Some?
    ensures Resolve(params, stored, j).state.selected == (if Find(StoredConfigs(stored), id).Some? then Some(id) else None)
  {
    assert IsGuestMode(params);
  }

  /** An empty store without a hydrated link is seeded with exactly one config, which is written and selected, even in guest mode. */
  lemma SeedsEmptyStore(params: seq<SearchParams.Param>, stored: Blob<RegistrationConfig>, j: Codec)
    requires StoredConfigs(stored) == []
    requires Resolve(params, stored, j).Started?
    requires !(SearchParams.Get(params, "data").Some? && ReadLink(SearchParams.Get(params, "data").value, j).Accepted?)
    ensures var m := Resolve(params, stored, j).state;
      m.configs == [Seed] && m.selected == Some("default-1") && m.written == Some([Seed])
  {
  }

  /** Seeding is idempotent: once the seed is stored, a plain load reads it back and writes nothing. */
  lemma SeedingIdempotent(j: Codec)
    ensures Resolve([], Holds([Seed]), j) == Started(Mounted([Seed], Some("default-1"), Admin, None, None))
  {
  }

  /** The seed has the fixed id and two required fields. */
  lemma SeedShape()
    ensures Seed.id == "default-1" && |Seed.fields| == 2
    ensures forall f :: f in Seed.fields ==> f.required
    ensures Seed.fields[0].labelText == "Full Name" && Seed.fields[1].labelText == "Email Address"
  {
  }

  /** Outside guest mode the dashboard shows first, with the first stored config selected. */
  lemma DefaultSelection(params: seq<SearchParams.Param>, stored: Blob<RegistrationConfig>, j: Codec)
    requires !IsGuestMode(params)
    requires StoredConfigs(stored) != []
    ensures Resolve(params, stored, j) == Started(Mounted(StoredConfigs(stored), Some(StoredConfigs(stored)[0].id), Admin, None, None))
    ensures ScreenOf(false, StoredConfigs(stored), Some(StoredConfigs(stored)[0].id), Admin, false) == Dashboard
  {
    assert SearchParams.Get(params, "data").None?;
    assert SearchParams.Get(params, "event").None?;
  }

  /** The "loaded" banner is set only for guests, who sit in the public view and have no navigation to leave it, so it never shows. */
  lemma BannerNeverShown(params: seq<SearchParams.Param>, stored: Blob<RegistrationConfig>, j: Codec)
    requires Resolve(params, stored, j).Started?
    ensures var m := Resolve(params, stored, j).state;
      m.message.Some? ==> IsGuestMode(params) && m.view == Public && BannerOf(m.message, m.view) == None
  {
    var m := Resolve(params, stored, j).state;
    if m.message.Some? {
      assert SearchParams.Get(params, "data").Some?;
    }
  }

  /** A resolved link always renders the selected config's form: a started public view never lands on "Registration Unavailable". */
  lemma PublicViewShowsForm(params: seq<SearchParams.Param>, stored: Blob<RegistrationConfig>, j: Codec)
    requires Resolve(params, stored, j).Started?
    requires Resolve(params, stored, j).state.view == Public
    ensures var m := Resolve(params, stored, j).state;
      ScreenOf(false, m.configs, m.selected, m.view, IsGuestMode(params)) == Form(Find(m.configs, m.selected.value).value)
  {
  }
}
