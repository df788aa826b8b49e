/**
 * The analysis framework: the sampling schedule every analysis shares
 * (`Analysisbase`), its configuration and report, and the construction of
 * the analysis list from a configuration (`CombinedAnalysis`), which
 * dispatches on the configuration's keys.
 */
module Analysis {
  import opened Base
  import opened JSON

  /**
   * The counters of an analysis: sample every `steps` calls once more than
   * `nskip` calls were made; `stepcnt` counts calls in the current period,
   * `totstepcnt` all calls and `cnt` the samples taken.
   */
  datatype Schedule = Schedule(steps: int, nskip: int, stepcnt: nat, totstepcnt: nat, cnt: nat) {

    /** Whether the next call samples. */
    predicate Fires()
    {
      stepcnt + 1 == steps && totstepcnt + 1 > nskip
    }

    /** The counters after one call of `sample()`. */
    function Tick(): Schedule
    {
      var s, t := stepcnt + 1, totstepcnt + 1;
      if s == steps then Schedule(steps, nskip, 0, t, if t > nskip then cnt + 1 else cnt)
      else Schedule(steps, nskip, s, t, cnt)
    }
  }

  /**
   * Each call counts one more step in total and in the period; it takes a
   * sample exactly when the period elapses after the skipped steps, and
   * then only one.
   */
  lemma TickCounts(s: Schedule)
    ensures s.Tick().steps == s.steps && s.Tick().nskip == s.nskip
    ensures s.Tick().totstepcnt == s.totstepcnt + 1
    ensures s.Tick().cnt == s.cnt + 1 <==> s.Fires()
    ensures s.Tick().cnt == s.cnt <==> !s.Fires()
    ensures s.Tick().stepcnt == 0 <==> s.stepcnt + 1 == s.steps
    ensures s.Tick().stepcnt != 0 ==> s.Tick().stepcnt == s.stepcnt + 1
  {
  }

  /** With a positive period, the period counter stays below it. */
  lemma TickBounded(s: Schedule)
    requires 0 < s.steps && s.stepcnt < s.steps
    ensures s.Tick().stepcnt < s.steps
  {
  }

  /**
   * A period that is not positive (0, the configuration's default, or a
   * negative one) never samples: after the increment the period counter is
   * at least 1.
   */
  lemma NeverFires(s: Schedule)
    requires s.steps <= 0
    ensures !s.Fires() && s.Tick().cnt == s.cnt && s.Tick().stepcnt == s.stepcnt + 1
  {
  }

  /** The counters after n calls. */
  function Run(s: Schedule, n: nat): Schedule
  {
    if n == 0 then s else Run(s, n - 1).Tick()
  }

  /** With a period that is not positive, no number of calls takes a sample. */
  lemma {:induction false} NeverRuns(s: Schedule, n: nat)
    requires s.steps <= 0
    ensures Run(s, n).cnt == s.cnt && Run(s, n).steps == s.steps
  {
    if n > 0 {
      NeverRuns(s, n - 1);
      NeverFires(Run(s, n - 1));
    }
  }

  /** The number of calls among the first n that sample: the multiples of steps above nskip. */
  function Fired(n: nat, steps: nat, nskip: int): nat
    requires steps > 0
  {
    if n == 0 then 0 else Fired(n - 1, steps, nskip) + (if n % steps == 0 && n > nskip then 1 else 0)
  }

  /** Division leaves one remainder: a decomposition n == q * steps + r with 0 <= r < steps gives n % steps. */
  lemma ModUnique(n: int, steps: int, q: int, r: int)
    requires steps > 0 && 0 <= r < steps && n == q * steps + r
    ensures n % steps == r
  {
    var q', r' := n / steps, n % steps;
    assert n == q' * steps + r';
    var dq := q - q';
    assert dq * steps == q * steps - q' * steps;
    assert dq * steps == r' - r;
  }

  lemma ModSucc(n: nat, steps: nat)
    requires steps > 0
    ensures (n + 1) % steps == (if n % steps + 1 == steps then 0 else n % steps + 1)
  {
    var q, r := n / steps, n % steps;
    assert n == q * steps + r;
    if r + 1 == steps {
      assert n + 1 == (q + 1) * steps + 0;
      ModUnique(n + 1, steps, q + 1, 0);
    } else {
      ModUnique(n + 1, steps, q, r + 1);
    }
  }

  /**
   * From fresh counters with a positive period, n calls leave the period
   * counter at n mod steps, the total at n, and one sample for every
   * multiple of steps among 1..n above nskip.
   */
  lemma {:induction false} RunFromStart(steps: nat, nskip: int, n: nat)
    requires steps > 0
    ensures Run(Schedule(steps, nskip, 0, 0, 0), n) == Schedule(steps, nskip, n % steps, n, Fired(n, steps, nskip))
  {
    if n > 0 {
      RunFromStart(steps, nskip, n - 1);
      ModSucc(n - 1, steps);
    }
  }

  /**
   * `from_json`: "nstep" and "nskip", each 0 when absent; a value that is
   * not a number fails, and "nskip" is read only once "nstep" was.
   */
  function Configure(j: Json): (r: Result<(int, int), JsonError>)
    ensures r.Ok? ==> j.Obj?
    ensures r.Err? <==> IntValue(j, "nstep", 0).Err? || IntValue(j, "nskip", 0).Err?
    ensures r.Ok? ==> r.value == (IntValue(j, "nstep", 0).value, IntValue(j, "nskip", 0).value)
    ensures r.Ok? && "nstep" !in j.fields ==> r.value.0 == 0
    ensures r.Ok? && "nskip" !in j.fields ==> r.value.1 == 0
    ensures IntValue(j, "nstep", 0).Err? ==> r == Err(IntValue(j, "nstep", 0).error)
  {
    var s := IntValue(j, "nstep", 0);
    if s.Err? then Err(s.error)
    else
      var k := IntValue(j, "nskip", 0);
      if k.Err? then Err(k.error) else Ok((s.value, k.value))
  }

  /** A configuration without "nstep" gives an analysis that never samples. */
  lemma DefaultNeverSamples(j: Json, s: Schedule)
    requires Configure(j).Ok? && "nstep" !in j.fields && s.steps == Configure(j).value.0
    ensures !s.Fires()
  {
  }

  /** `SanityCheck` reads "nstep" again with -1 as its fallback: unconfigured, it never samples. */
  lemma SanityDefaultNeverSamples(j: Json, s: Schedule)
    requires j.Obj? && "nstep" !in j.fields && s.steps == IntValue(j, "nstep", -1).value
    ensures s.steps == -1 && !s.Fires()
  {
  }

  /** Whether `to_json` writes any member: once the analysis has sampled, or when it has a reference. */
  predicate Writes(s: Schedule, cite: string)
  {
    s.cnt > 0 || cite != []
  }

  /** The keys `to_json` adds to every report. */
  const ReportKeys: set<string> := {"nstep", "samples", "nskip", "relative time", "reference"}

  /**
   * The report object of an analysis, from the object `_to_json` left: if
   * it sampled, its period, its sample count, its skip count when
   * positive and its share of the run time when above 1%; its reference,
   * when it has one. Every other key is the analysis's own.
   */
  function Report(s: Schedule, cite: string, own: map<string, Json>, time: real, round: real -> real)
    : (fields: map<string, Json>)
    ensures "nstep" in fields <==> s.cnt > 0 || "nstep" in own
    ensures "samples" in fields <==> s.cnt > 0 || "samples" in own
    ensures "nskip" in fields <==> (s.cnt > 0 && s.nskip > 0) || "nskip" in own
    ensures "relative time" in fields <==> (s.cnt > 0 && time > 0.01) || "relative time" in own
    ensures "reference" in fields <==> cite != [] || "reference" in own
    ensures forall k :: k in own && !(k in ReportKeys) ==> k in fields && fields[k] == own[k]
    ensures forall k :: k in fields ==> k in own || k in ReportKeys
    ensures s.cnt > 0 ==> fields["nstep"] == Int(s.steps) && fields["samples"] == Int(s.cnt)
    ensures s.cnt > 0 && s.nskip > 0 ==> fields["nskip"] == Int(s.nskip)
    ensures s.cnt > 0 && time > 0.01 ==> fields["relative time"] == Num(round(time))
    ensures cite != [] ==> fields["reference"] == Str(cite)
  {
    var a := if s.cnt > 0 && time > 0.01 then own["relative time" := Num(round(time))] else own;
    var b := if s.cnt > 0 then a["nstep" := Int(s.steps)]["samples" := Int(s.cnt)] else a;
    var c := if s.cnt > 0 && s.nskip > 0 then b["nskip" := Int(s.nskip)] else b;
    if cite != [] then c["reference" := Str(cite)] else c
  }

  /** `Analysisbase`: the schedule counters, the name the report is filed under and the reference. */
  class Analysisbase {
    var steps: int
    var nskip: int
    var stepcnt: nat
    var totstepcnt: nat
    var cnt: nat
    var name: string
    var cite: string

    constructor (n: string, c: string)
      ensures Counters() == Schedule(0, 0, 0, 0, 0) && name == n && cite == c
    {
      steps, nskip, stepcnt, totstepcnt, cnt := 0, 0, 0, 0, 0;
      name, cite := n, c;
    }

    function Counters(): Schedule
      reads this
    {
      Schedule(steps, nskip, stepcnt, totstepcnt, cnt)
    }

    /** `sample()`: one call; returns whether the analysis's `_sample` runs. */
    method Sample() returns (sampled: bool)
      modifies this`stepcnt, this`totstepcnt, this`cnt
      ensures Counters() == old(Counters()).Tick() && sampled == old(Counters()).Fires()
    {
      totstepcnt := totstepcnt + 1;
      stepcnt := stepcnt + 1;
      sampled := false;
      if stepcnt == steps {
        stepcnt := 0;
        if totstepcnt > nskip {
          cnt := cnt + 1;
          sampled := true;
        }
      }
    }

    /**
     * `from_json`: the period, then the skip count; when the second read
     * fails the period is already set.
     */
    method FromJson(j: Json) returns (r: Outcome<JsonError>)
      modifies this`steps, this`nskip
      ensures Configure(j).Ok? ==> r.Pass? && (steps, nskip) == Configure(j).value
      ensures Configure(j).Err? ==> r == Fail(Configure(j).error)
      ensures IntValue(j, "nstep", 0).Err? ==> steps == old(steps) && nskip == old(nskip)
      ensures IntValue(j, "nstep", 0).Ok? ==> steps == IntValue(j, "nstep", 0).value
      ensures IntValue(j, "nskip", 0).Err? ==> nskip == old(nskip)
    {
      var s := IntValue(j, "nstep", 0);
      if s.Err? {
        return Fail(s.error);
      }
      steps := s.value;
      var k := IntValue(j, "nskip", 0);
      if k.Err? {
        return Fail(k.error);
      }
      nskip := k.value;
      return Pass;
    }

    /**
     * `to_json`. `own` is the entry under the analysis's name once its
     * `_to_json` has run: `null` when the entry is new and `_to_json`
     * wrote nothing. The base members are only written once the analysis
     * has sampled or has a reference; until then the entry is left as it
     * is, `null` included. Writing a member into an entry that is neither
     * `null` nor an object throws.
     */
    function ToJson(j: map<string, Json>, own: Json, time: real, round: real -> real)
      : (r: Result<map<string, Json>, JsonError>)
      requires name != []
      reads this
      ensures r.Err? <==> Writes(Counters(), cite) && !own.Null? && !own.Obj?
      ensures r.Err? ==> r.error == NotAnObject
      ensures r.Ok? ==> r.value.Keys == j.Keys + {name}
      ensures r.Ok? ==> forall k :: k in j && k != name ==> r.value[k] == j[k]
      ensures !Writes(Counters(), cite) ==> r == Ok(j[name := own])
      ensures cnt == 0 && cite == [] && own == Null ==> r.Ok? && r.value[name] == Null
      ensures Writes(Counters(), cite) && own.Null? ==>
        r == Ok(j[name := Obj(Report(Counters(), cite, map[], time, round))])
      ensures Writes(Counters(), cite) && own.Obj? ==>
        r == Ok(j[name := Obj(Report(Counters(), cite, own.fields, time, round))])
    {
      if !Writes(Counters(), cite) then Ok(j[name := own])
      else if own.Null? then Ok(j[name := Obj(Report(Counters(), cite, map[], time, round))])
      else if own.Obj? then Ok(j[name := Obj(Report(Counters(), cite, own.fields, time, round))])
      else Err(NotAnObject)
    }
  }

  /**
   * An analysis whose period is not positive, that has no reference and
   * whose `_to_json` writes nothing (the base one) leaves `null` under its
   * name, however many steps were run: an unconfigured `SanityCheck`.
   */
  lemma UnsampledReportIsNull(a: Analysisbase, j: map<string, Json>, n: nat, time: real, round: real -> real)
    requires a.name != [] && a.cite == [] && a.steps <= 0
    requires a.Counters() == Run(Schedule(a.steps, a.nskip, 0, 0, 0), n)
    ensures a.ToJson(j, Null, time, round) == Ok(j[a.name := Null])
  {
    NeverRuns(Schedule(a.steps, a.nskip, 0, 0, 0), n);
  }

  /** The analyses a configuration key names. */
  datatype Kind =
    | AtomProfile | AtomRDF | Density | ChargeFluctuations | MoleculeRDF | Multipole
    | MultipoleDistribution | PolymerShape | QRtraj | FileReactionCoordinate | SanityCheck
    | SaveState | ScatteringFunction | SlicedDensity | SystemEnergy | VirtualVolume
    | WidomInsertion | XTCtraj

  /** The key table of the `CombinedAnalysis` constructor. */
  function KindOf(key: string): Option<Kind>
  {
    if key == "atomprofile" then Some(AtomProfile)
    else if key == "atomrdf" then Some(AtomRDF)
    else if key == "density" then Some(Density)
    else if key == "chargefluctuations" then Some(ChargeFluctuations)
    else if key == "molrdf" then Some(MoleculeRDF)
    else if key == "multipole" then Some(Multipole)
    else if key == "multipoledist" then Some(MultipoleDistribution)
    else if key == "polymershape" then Some(PolymerShape)
    else if key == "qrfile" then Some(QRtraj)
    else if key == "reactioncoordinate" then Some(FileReactionCoordinate)
    else if key == "sanity" then Some(SanityCheck)
    else if key == "savestate" then Some(SaveState)
    else if key == "scatter" then Some(ScatteringFunction)
    else if key == "sliceddensity" then Some(SlicedDensity)
    else if key == "systemenergy" then Some(SystemEnergy)
    else if key == "virtualvolume" then Some(VirtualVolume)
    else if key == "widom" then Some(WidomInsertion)
    else if key == "xtcfile" then Some(XTCtraj)
    else None
  }

  /** The keys the table knows. */
  const KnownKeys: set<string> := {
    "atomprofile", "atomrdf", "density", "chargefluctuations", "molrdf", "multipole",
    "multipoledist", "polymershape", "qrfile", "reactioncoordinate", "sanity", "savestate",
    "scatter", "sliceddensity", "systemenergy", "virtualvolume", "widom", "xtcfile"}

  /** The key of each analysis: the table read backwards. */
  function KeyOf(k: Kind): string
  {
    match k
    case AtomProfile => "atomprofile"
    case AtomRDF => "atomrdf"
    case Density => "density"
    case ChargeFluctuations => "chargefluctuations"
    case MoleculeRDF => "molrdf"
    case Multipole => "multipole"
    case MultipoleDistribution => "multipoledist"
    case PolymerShape => "polymershape"
    case QRtraj => "qrfile"
    case FileReactionCoordinate => "reactioncoordinate"
    case SanityCheck => "sanity"
    case SaveState => "savestate"
    case ScatteringFunction => "scatter"
    case SlicedDensity => "sliceddensity"
    case SystemEnergy => "systemenergy"
    case VirtualVolume => "virtualvolume"
    case WidomInsertion => "widom"
    case XTCtraj => "xtcfile"
  }

  /** Exactly the eighteen keys are known, each names one analysis, and every analysis has its key. */
  lemma KindOfKnown(key: string)
    ensures KindOf(key).Some? <==> key in KnownKeys
  {
  }

  lemma KeyOfKnown(k: Kind)
    ensures KindOf(KeyOf(k)) == Some(k)
  {
    if k.AtomProfile? || k.AtomRDF? || k.Density? {
      KeyOfKnownPart1(k);
    } else if k.ChargeFluctuations? || k.MoleculeRDF? || k.Multipole? {
      KeyOfKnownPart2(k);
    } else if k.MultipoleDistribution? || k.PolymerShape? || k.QRtraj? {
      KeyOfKnownPart3(k);
    } else if k.FileReactionCoordinate? || k.SanityCheck? || k.SaveState? {
      KeyOfKnownPart4(k);
    } else if k.ScatteringFunction? || k.SlicedDensity? || k.SystemEnergy? {
      KeyOfKnownPart5(k);
    } else {
      KeyOfKnownPart6(k);
    }
  }

  /** Every known key is the key of the analysis it names. */
  lemma KindOfKey(key: string)
    requires KindOf(key).Some?
    ensures key == KeyOf(KindOf(key).value)
  {
    KindOfKnown(key);
    KeyOfKnown(AtomProfile);
    KeyOfKnown(AtomRDF);
    KeyOfKnown(Density);
    KeyOfKnown(ChargeFluctuations);
    KeyOfKnown(MoleculeRDF);
    KeyOfKnown(Multipole);
    KeyOfKnown(MultipoleDistribution);
    KeyOfKnown(PolymerShape);
    KeyOfKnown(QRtraj);
    KeyOfKnown(FileReactionCoordinate);
    KeyOfKnown(SanityCheck);
    KeyOfKnown(SaveState);
    KeyOfKnown(ScatteringFunction);
    KeyOfKnown(SlicedDensity);
    KeyOfKnown(SystemEnergy);
    KeyOfKnown(VirtualVolume);
    KeyOfKnown(WidomInsertion);
    KeyOfKnown(XTCtraj);
  }

  /** KeyOfKnown for the first three entries of the table. */
  lemma KeyOfKnownPart1(k: Kind)
    requires k.AtomProfile? || k.AtomRDF? || k.Density?
    ensures KindOf(KeyOf(k)) == Some(k)
  {
  }

  /** KeyOfKnown for the second three entries of the table. */
  lemma KeyOfKnownPart2(k: Kind)
    requires k.ChargeFluctuations? || k.MoleculeRDF? || k.Multipole?
    ensures KindOf(KeyOf(k)) == Some(k)
  {
  }

  /** KeyOfKnown for the third three entries of the table. */
  lemma KeyOfKnownPart3(k: Kind)
    requires k.MultipoleDistribution? || k.PolymerShape? || k.QRtraj?
    ensures KindOf(KeyOf(k)) == Some(k)
  {
  }

  /** KeyOfKnown for the fourth three entries of the table. */
  lemma KeyOfKnownPart4(k: Kind)
    requires k.FileReactionCoordinate? || k.SanityCheck? || k.SaveState?
    ensures KindOf(KeyOf(k)) == Some(k)
  {
  }

  /** KeyOfKnown for the fifth three entries of the table. */
  lemma KeyOfKnownPart5(k: Kind)
    requires k.ScatteringFunction? || k.SlicedDensity? || k.SystemEnergy?
    ensures KindOf(KeyOf(k)) == Some(k)
  {
  }

  /** KeyOfKnown for the sixth three entries of the table. */
  lemma KeyOfKnownPart6(k: Kind)
    requires k.VirtualVolume? || k.WidomInsertion? || k.XTCtraj?
    ensures KindOf(KeyOf(k)) == Some(k)
  {
  }

  lemma KindOfInjective(a: string, b: string)
    requires KindOf(a).Some? && KindOf(a) == KindOf(b)
    ensures a == b
  {
    KindOfKey(a);
    KindOfKey(b);
  }

  /** What building the analysis list throws. */
  datatype AddError =
    | UnknownAnalysis(key: string)   // an object-valued key the table does not know
    | KeyOfArray                     // `key()` of a member of an array

  /** One member of a configuration object: an object value names an analysis, any other value is passed over. */
  function AddMember(acc: seq<Kind>, key: string, v: Json): Result<seq<Kind>, AddError>
  {
    if !v.Obj? then Ok(acc)
    else match KindOf(key)
      case None => Err(UnknownAnalysis(key))
      case Some(k) => Ok(acc + [k])
  }

  /** The members of one configuration object, least key first. */
  ghost function AddObject(acc: seq<Kind>, fields: map<string, Json>): Result<seq<Kind>, AddError>
    decreases |fields|
  {
    if |fields| == 0 then Ok(acc)
    else
      var k := Least(fields.Keys);
      match AddMember(acc, k, fields[k])
      case Err(e) => Err(e)
      case Ok(a) => AddObject(a, fields - {k})
  }

  predicate HasObject(items: seq<Json>)
  {
    exists i :: 0 <= i < |items| && items[i].Obj?
  }

  /**
   * One element of the configuration array: its members when it is an
   * object; an array among whose elements is an object makes `key()`
   * throw; any other value adds nothing.
   */
  ghost function AddItem(acc: seq<Kind>, m: Json): Result<seq<Kind>, AddError>
  {
    if m.Obj? then AddObject(acc, m.fields)
    else if m.Arr? && HasObject(m.items) then Err(KeyOfArray)
    else Ok(acc)
  }

  ghost function AddItems(acc: seq<Kind>, items: seq<Json>, i: nat): Result<seq<Kind>, AddError>
    requires i <= |items|
    decreases |items| - i
  {
    if i == |items| then Ok(acc)
    else match AddItem(acc, items[i])
      case Err(e) => Err(e)
      case Ok(a) => AddItems(a, items, i + 1)
  }

  /** The analyses a configuration asks for, in order: nothing unless it is an array. */
  ghost function Analyses(j: Json): Result<seq<Kind>, AddError>
  {
    if j.Arr? then AddItems([], j.items, 0) else Ok([])
  }

  /** A known object-valued key adds its analysis after those already added. */
  lemma {:induction false} AddObjectGrows(acc: seq<Kind>, fields: map<string, Json>)
    ensures AddObject(acc, fields).Ok? ==>
      |acc| <= |AddObject(acc, fields).value| && AddObject(acc, fields).value[..|acc|] == acc
    decreases |fields|
  {
    if |fields| != 0 {
      var k := Least(fields.Keys);
      var r := AddMember(acc, k, fields[k]);
      if r.Ok? {
        AddObjectGrows(r.value, fields - {k});
        if AddObject(acc, fields).Ok? {
          var out := AddObject(acc, fields).value;
          assert out == AddObject(r.value, fields - {k}).value;
          assert r.value[..|acc|] == acc;
          assert out[..|acc|] == out[..|r.value|][..|acc|];
        }
      }
    }
  }

  /** An object-valued key the table does not know makes its object fail. */
  lemma {:induction false} UnknownInObject(acc: seq<Kind>, fields: map<string, Json>, key: string)
    requires key in fields && fields[key].Obj? && KindOf(key).None?
    ensures AddObject(acc, fields).Err?
    decreases |fields|
  {
    var k := Least(fields.Keys);
    if k != key {
      var r := AddMember(acc, k, fields[k]);
      if r.Ok? {
        UnknownInObject(r.value, fields - {k}, key);
      }
    }
  }

  lemma {:induction false} UnknownInItems(acc: seq<Kind>, items: seq<Json>, i: nat, bad: nat, key: string)
    requires i <= bad < |items| && items[bad].Obj?
    requires key in items[bad].fields && items[bad].fields[key].Obj? && KindOf(key).None?
    ensures AddItems(acc, items, i).Err?
    decreases bad - i
  {
    if i == bad {
      UnknownInObject(acc, items[bad].fields, key);
    } else {
      var r := AddItem(acc, items[i]);
      if r.Ok? {
        UnknownInItems(r.value, items, i + 1, bad, key);
      }
    }
  }

  /**
   * "unknown analysis": a configuration array holding an object with an
   * object-valued key outside the table yields no analysis list at all.
   */
  lemma UnknownRejected(j: Json, bad: nat, key: string)
    requires j.Arr? && bad < |j.items| && j.items[bad].Obj?
    requires key in j.items[bad].fields && j.items[bad].fields[key].Obj? && key !in KnownKeys
    ensures Analyses(j).Err?
  {
    KindOfKnown(key);
    UnknownInItems([], j.items, 0, bad, key);
  }

  /** The keys whose values are objects: the members that name analyses. */
  function ObjectKeys(fields: map<string, Json>): set<string>
  {
    set k | k in fields && fields[k].Obj?
  }

  lemma ObjectKeysRemove(fields: map<string, Json>, k: string)
    requires k in fields
    ensures |ObjectKeys(fields)| == |ObjectKeys(fields - {k})| + (if fields[k].Obj? then 1 else 0)
  {
    var all, rest := ObjectKeys(fields), ObjectKeys(fields - {k});
    if fields[k].Obj? {
      assert all == rest + {k};
      assert k !in rest;
    } else {
      assert all == rest;
    }
  }

  /** A configuration object whose object-valued keys are all known adds one analysis per such key. */
  lemma {:induction false} KnownObjectAdds(acc: seq<Kind>, fields: map<string, Json>)
    requires forall k :: k in fields && fields[k].Obj? ==> k in KnownKeys
    ensures AddObject(acc, fields).Ok?
    ensures |AddObject(acc, fields).value| == |acc| + |ObjectKeys(fields)|
    decreases |fields|
  {
    if |fields| != 0 {
      var k := Least(fields.Keys);
      var rest := fields - {k};
      KindOfKnown(k);
      var r := AddMember(acc, k, fields[k]);
      assert r.Ok? && |r.value| == |acc| + (if fields[k].Obj? then 1 else 0);
      KnownObjectAdds(r.value, rest);
      ObjectKeysRemove(fields, k);
      assert AddObject(acc, fields) == AddObject(r.value, rest);
    }
  }

  /** `CombinedAnalysis`: the analysis list its constructor builds. */
  class CombinedAnalysis {
    var vec: seq<Kind>

    /** The constructor's loops: the array's elements in order, each object's members in key order. */
    static method Build(j: Json) returns (r: Result<seq<Kind>, AddError>)
      ensures r == Analyses(j)
    {
      if !j.Arr? {
        return Ok([]);
      }
      var items := j.items;
      var kinds: seq<Kind> := [];
      var i := 0;
      while i < |items|
        invariant 0 <= i <= |items|
        invariant AddItems(kinds, items, i) == Analyses(j)
        decreases |items| - i
      {
        var m := items[i];
        if m.Obj? {
          var rest := m.fields;
          while |rest| != 0
            invariant (match AddObject(kinds, rest)
                       case Err(e) => Err(e)
                       case Ok(a) => AddItems(a, items, i + 1)) == Analyses(j)
            decreases |rest|
          {
            LeastExists(rest.Keys);
            var k :| IsLeast(k, rest.Keys);
            LeastUnique(k, Least(rest.Keys), rest.Keys);
            var v := rest[k];
            if v.Obj? {
              var kind := KindOf(k);
              if kind.None? {
                return Err(UnknownAnalysis(k));
              }
              kinds := kinds + [kind.value];
            }
            rest := rest - {k};
          }
        } else if m.Arr? {
          var e := 0;
          while e < |m.items|
            invariant 0 <= e <= |m.items|
            invariant forall x :: 0 <= x < e ==> !m.items[x].Obj?
            decreases |m.items| - e
          {
            if m.items[e].Obj? {
              return Err(KeyOfArray);
            }
            e := e + 1;
          }
        }
        i := i + 1;
      }
      return Ok(kinds);
    }
  }
}
