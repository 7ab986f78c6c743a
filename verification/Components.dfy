/** Which components a run cleans: defaults, inclusion switches and explicit choices. */
module Components {
  import opened Text
  import opened Options

  type Selection = map<string, bool>

  datatype CatalogEntry = CatalogEntry(key: string, defaultEnabled: bool)

  /** The state a component starts with; the optional ones follow their switch. */
  function InitialState(c: CatalogEntry, o: Opts): bool {
    if c.key == "NGX" then WithNgx in o.on
    else if c.key == "HDAudio" then WithHdAudio in o.on
    else if c.key == "PhysX" then WithPhysx in o.on
    else if c.key == "NotebookOptimus" then WithNotebookOptimus in o.on
    else if c.key == "VirtualAudio" then WithVirtualAudio in o.on
    else if c.key == "NvWMI" then WithNvwmi in o.on
    else if c.key == "CaptureSDK" then WithCaptureSdk in o.on
    else if c.key == "AnselCamera" then WithAnsel in o.on
    else c.defaultEnabled
  }

  function CatalogKeys(catalog: seq<CatalogEntry>): set<string> {
    set c | c in catalog :: c.key
  }

  /** The states before any choice; of entries with the same key the last counts. */
  function Initial(catalog: seq<CatalogEntry>, o: Opts): (m: Selection)
    ensures m.Keys == CatalogKeys(catalog)
  {
    if catalog == [] then map[]
    else
      var last := catalog[|catalog| - 1];
      assert catalog == catalog[..|catalog| - 1] + [last];
      Initial(catalog[..|catalog| - 1], o)[last.key := InitialState(last, o)]
  }

  lemma {:induction false} LastEntryCounts(catalog: seq<CatalogEntry>, o: Opts, i: nat)
    requires i < |catalog| && forall j | i < j < |catalog| :: catalog[j].key != catalog[i].key
    ensures catalog[i].key in CatalogKeys(catalog)
    ensures Initial(catalog, o)[catalog[i].key] == InitialState(catalog[i], o)
  {
    assert catalog[i] in catalog;
    if i == |catalog| - 1 {
    } else {
      LastEntryCounts(catalog[..|catalog| - 1], o, i);
    }
  }

  /** initialize_component_selection. */
  method InitializeSelection(catalog: seq<CatalogEntry>, o: Opts) returns (m: Selection)
    ensures m == Initial(catalog, o)
    ensures forall i | 0 <= i < |catalog| && forall j | i < j < |catalog| :: catalog[j].key != catalog[i].key ::
      m[catalog[i].key] == InitialState(catalog[i], o)
  {
    m := map[];
    for i := 0 to |catalog|
      invariant m == Initial(catalog[..i], o)
    {
      assert catalog[..i + 1][..i] == catalog[..i];
      m := m[catalog[i].key := InitialState(catalog[i], o)];
    }
    assert catalog[..|catalog|] == catalog;
    forall i | 0 <= i < |catalog| && forall j | i < j < |catalog| :: catalog[j].key != catalog[i].key
      ensures catalog[i].key in m && m[catalog[i].key] == InitialState(catalog[i], o)
    {
      LastEntryCounts(catalog, o, i);
    }
  }

  /** The first `:` or `=`. */
  function Separator(spec: string): (i: nat)
    ensures i <= |spec| && (i < |spec| ==> spec[i] == ':' || spec[i] == '=')
    ensures forall j | 0 <= j < i :: spec[j] != ':' && spec[j] != '='
  {
    if spec == "" || spec[0] == ':' || spec[0] == '=' then 0 else 1 + Separator(spec[1..])
  }

  /** What one argument says about a component. */
  datatype Choice = NoChoice | Invalid | Choose(keyLow: string, on: bool)

  function ChoiceOf(a: string): Choice {
    if !(COMPONENT_PREFIX <= Lower(a)) then NoChoice
    else
      var spec := a[|COMPONENT_PREFIX|..];
      var sep := Separator(spec);
      if sep == |spec| then Invalid
      else
        var word := ParseBoolWord(Lower(spec[sep + 1..]));
        if word.None? then Invalid else Choose(Lower(spec[..sep]), word.value)
  }

  predicate Names(m: Selection, keyLow: string) {
    exists k | k in m :: Lower(k) == keyLow
  }

  /** The selection after one argument. */
  function Chosen(m: Selection, a: string): Selection {
    match ChoiceOf(a)
    case Choose(keyLow, on) => map k | k in m :: if Lower(k) == keyLow then on else m[k]
    case _ => m
  }

  /** Whether an argument is a component choice that cannot be applied. */
  predicate BadChoice(m: Selection, a: string) {
    match ChoiceOf(a)
    case NoChoice => false
    case Invalid => true
    case Choose(keyLow, _) => !Names(m, keyLow)
  }

  function ChosenAll(m: Selection, args: seq<string>): Selection {
    if args == [] then m else Chosen(ChosenAll(m, args[..|args| - 1]), args[|args| - 1])
  }

  const UPDATER := "UpdateAndProfileUpdater"

  /** A bare launch leaves the updater alone, whatever its default. */
  function WithoutUpdater(m: Selection): (m': Selection)
    ensures m'.Keys == m.Keys && forall k | k in m :: m'[k] == (m[k] && k != UPDATER)
  {
    if UPDATER in m then m[UPDATER := false] else m
  }

  /** apply_component_args: the arguments that could not be applied come back. */
  method ApplyComponentArgs(m: Selection, args: seq<string>) returns (m': Selection, problems: seq<string>)
    ensures m' == ChosenAll(m, args) && m'.Keys == m.Keys
    ensures forall p :: p in problems <==> p in args && BadChoice(m, p)
  {
    m', problems := m, [];
    for i := 0 to |args|
      invariant m' == ChosenAll(m, args[..i]) && m'.Keys == m.Keys
      invariant forall p :: p in problems <==> p in args[..i] && BadChoice(m, p)
    {
      assert args[..i + 1][..i] == args[..i] && args[..i + 1] == args[..i] + [args[i]];
      assert BadChoice(m', args[i]) == BadChoice(m, args[i]);
      if BadChoice(m', args[i]) {
        problems := problems + [args[i]];
      }
      m' := Chosen(m', args[i]);
    }
    assert args[..|args|] == args;
  }
}
