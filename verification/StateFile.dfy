/** The agent's state file: identity, saved setpoint and cached models as one JSON object. */
module StateFile {
  import opened Text

  /** A Python float; NaN and the infinities are kept by name. */
  datatype Float = Finite(x: real) | Special(name: string)

  datatype Json =
    | Null | Bool(b: bool) | Integer(i: int) | Real(x: Float) | String(s: string)
    | Array(items: seq<Json>) | Object(fields: map<string, Json>)

  /** What the path holds for `load`. `Barred`: a parent directory may not be searched.
      `NotText`: the bytes do not decode. `NotJson`: the parser's own error. `TooMuch`: the
      parser gives up otherwise, on nesting too deep or an integer with too many digits. */
  datatype File = Absent | Barred | Unreadable | NotText | NotJson | TooMuch | Parsed(json: Json)

  datatype Identity =
    Identity(nodeId: Option<string>, nodeToken: Option<string>, saved: Option<Float>, cached: seq<string>)

  const UNKNOWN := Identity(None, None, None, [])

  predicate Enrolled(id: Identity) {
    id.nodeId.Some? && id.nodeToken.Some?
  }

  datatype Outcome = Loaded(ok: bool) | Raised

  function Pow2(n: nat): nat {
    if n == 0 then 1 else 2 * Pow2(n - 1)
  }

  /** `float(i)` overflows from the midpoint above the largest double on. */
  predicate FitsFloat(i: int) {
    -(Pow2(1024) - Pow2(970)) < i < Pow2(1024) - Pow2(970)
  }

  function StringsOf(items: seq<Json>): seq<string> {
    if items == [] then []
    else (if items[0].String? then [items[0].s] else []) + StringsOf(items[1..])
  }

  function Items(strings: seq<string>): seq<Json> {
    if strings == [] then [] else [String(strings[0])] + Items(strings[1..])
  }

  /** Python counts a boolean as a number. */
  function SavedOf(fields: map<string, Json>): Option<Float> {
    if "saved_setpoint_c" !in fields then None
    else match fields["saved_setpoint_c"]
      case Integer(i) => Some(Finite(i as real))
      case Real(x) => Some(x)
      case Bool(b) => Some(Finite(if b then 1.0 else 0.0))
      case _ => None
  }

  /** The saved setpoint is an integer beyond the range of a float. */
  predicate SavedTooLarge(fields: map<string, Json>) {
    "saved_setpoint_c" in fields && fields["saved_setpoint_c"].Integer? && !FitsFloat(fields["saved_setpoint_c"].i)
  }

  function CachedOf(fields: map<string, Json>): seq<string> {
    if "cached_models" in fields && fields["cached_models"].Array? then StringsOf(fields["cached_models"].items) else []
  }

  predicate HasString(fields: map<string, Json>, key: string) {
    key in fields && fields[key].String?
  }

  predicate HasIdentity(fields: map<string, Json>) {
    HasString(fields, "node_id") && HasString(fields, "node_token")
  }

  /** Where the setpoint overflows, the two names have been assigned already. */
  function LoadStep(id: Identity, file: File): (Identity, Outcome) {
    match file
    case Absent => (id, Loaded(false))
    case Unreadable => (id, Loaded(false))
    case NotJson => (id, Loaded(false))
    case Barred => (id, Raised)
    case NotText => (id, Raised)
    case TooMuch => (id, Raised)
    case Parsed(json) =>
      if !json.Object? then (id, Raised)
      else if !HasIdentity(json.fields) then (id, Loaded(false))
      else
        var named := id.(nodeId := Some(json.fields["node_id"].s), nodeToken := Some(json.fields["node_token"].s));
        if SavedTooLarge(json.fields) then (named, Raised)
        else (named.(saved := SavedOf(json.fields), cached := CachedOf(json.fields)), Loaded(true))
  }

  lemma {:induction false} Pow2Adds(m: nat, n: nat)
    ensures Pow2(m + n) == Pow2(m) * Pow2(n)
  {
    if m > 0 {
      Pow2Adds(m - 1, n);
    }
  }

  lemma Pow2Of54()
    ensures Pow2(54) == 0x40_0000_0000_0000
  {
    assert Pow2(3) == 8;
    Pow2Adds(3, 3);
    Pow2Adds(6, 3);
    Pow2Adds(9, 9);
    Pow2Adds(18, 9);
    Pow2Adds(27, 27);
  }

  lemma Limit()
    ensures Pow2(1024) - Pow2(970) == (0x40_0000_0000_0000 - 1) * Pow2(970)
  {
    hide Pow2;
    Pow2Of54();
    Pow2Adds(54, 970);
  }

  /** An integer fits exactly up to half a step above the largest double, which is 2^53 - 1
      steps of 2^971. */
  lemma FitsExactly(i: int)
    ensures Pow2(0) == 1 && Pow2(1) == 2
    ensures FitsFloat(i) <==>
      -((0x40_0000_0000_0000 - 1) * Pow2(970)) < i < (0x40_0000_0000_0000 - 1) * Pow2(970)
  {
    assert Pow2(0) == 1 && Pow2(1) == 2;
    hide Pow2;
    Limit();
  }

  /** A setpoint that makes `load` raise is an integer, positive or negative, from there on. */
  lemma OverflowsExactly(fields: map<string, Json>)
    ensures SavedTooLarge(fields) <==>
      exists i: int :: "saved_setpoint_c" in fields && fields["saved_setpoint_c"] == Integer(i)
        && (i >= (0x40_0000_0000_0000 - 1) * Pow2(970) || i <= -((0x40_0000_0000_0000 - 1) * Pow2(970)))
  {
    hide Pow2;
    if "saved_setpoint_c" in fields && fields["saved_setpoint_c"].Integer? {
      var i := fields["saved_setpoint_c"].i;
      FitsExactly(i);
      assert fields["saved_setpoint_c"] == Integer(i);
    }
    hide FitsFloat;
  }

  /** What an enrolled file loads as the setpoint: a number as it is, a boolean as one or zero,
      and nothing for anything else. */
  lemma SetpointLoads(id: Identity, fields: map<string, Json>)
    requires HasIdentity(fields) && !SavedTooLarge(fields)
    ensures var saved, key := LoadStep(id, Parsed(Object(fields))).0.saved, "saved_setpoint_c";
      if key !in fields then saved == None
      else match fields[key]
           case Integer(i) => saved == Some(Finite(i as real))
           case Real(x) => saved == Some(x)
           case Bool(true) => saved == Some(Finite(1.0))
           case Bool(false) => saved == Some(Finite(0.0))
           case _ => saved == None
  {
    hide FitsFloat, CachedOf;
  }

  function Payload(id: Identity): map<string, Json>
    requires Enrolled(id)
  {
    var fields := map["node_id" := String(id.nodeId.value), "node_token" := String(id.nodeToken.value)];
    var withSaved := if id.saved.Some? then fields["saved_setpoint_c" := Real(id.saved.value)] else fields;
    if id.cached != [] then withSaved["cached_models" := Array(Items(id.cached))] else withSaved
  }

  /** The file names the setpoint and the models only where there are any. */
  lemma PayloadIsSparse(id: Identity)
    requires Enrolled(id)
    ensures var fields := Payload(id);
      && fields.Keys <= {"node_id", "node_token", "saved_setpoint_c", "cached_models"}
      && ("saved_setpoint_c" in fields <==> id.saved.Some?)
      && ("cached_models" in fields <==> id.cached != [])
  {
    hide Items;
  }

  function Added(cached: seq<string>, model: string): seq<string> {
    if model != "" && model !in cached then cached + [model] else cached
  }

  class AgentState {
    var nodeId: Option<string>
    var nodeToken: Option<string>
    var savedSetpoint: Option<Float>
    var cachedModels: seq<string>
    var file: File

    ghost function Contents(): Identity
      reads this
    {
      Identity(nodeId, nodeToken, savedSetpoint, cachedModels)
    }

    method Load() returns (outcome: Outcome)
      modifies this
      ensures (Contents(), outcome) == LoadStep(old(Contents()), old(file)) && file == old(file)
    {
      if file.Barred? {
        return Raised;
      }
      if file.Absent? || file.Unreadable? || file.NotJson? {
        return Loaded(false);
      }
      if !file.Parsed? || !file.json.Object? {
        return Raised;
      }
      var data := file.json.fields;
      if HasString(data, "node_id") && HasString(data, "node_token") {
        nodeId, nodeToken := Some(data["node_id"].s), Some(data["node_token"].s);
        if SavedTooLarge(data) {
          return Raised;
        }
        savedSetpoint := SavedOf(data);
        cachedModels := [];
        if "cached_models" in data && data["cached_models"].Array? {
          var items := data["cached_models"].items;
          for i := 0 to |items|
            modifies this`cachedModels
            invariant cachedModels + StringsOf(items[i..]) == StringsOf(items)
          {
            if items[i].String? {
              cachedModels := cachedModels + [items[i].s];
            }
          }
          assert cachedModels + [] == cachedModels;
        }
        return Loaded(true);
      }
      return Loaded(false);
    }

    /** False stands for the exception: not enrolled, or the write failed. */
    method Save(writeOk: bool) returns (saved: bool)
      modifies this`file
      ensures saved == (writeOk && Enrolled(Contents()))
      ensures file == if saved then Parsed(Object(Payload(Contents()))) else old(file)
    {
      saved := writeOk && nodeId.Some? && nodeToken.Some?;
      if saved {
        file := Parsed(Object(Payload(Identity(nodeId, nodeToken, savedSetpoint, cachedModels))));
      }
    }

    method RecordCachedModel(model: string, writeOk: bool) returns (saved: bool)
      modifies this
      ensures Contents() == old(Contents()).(cached := Added(old(cachedModels), model))
      ensures saved <==> cachedModels == old(cachedModels) || (Enrolled(Contents()) && writeOk)
      ensures saved && cachedModels != old(cachedModels) ==> file == Parsed(Object(Payload(Contents())))
      ensures !saved || cachedModels == old(cachedModels) ==> file == old(file)
    {
      saved := true;
      if model != "" && model !in cachedModels {
        cachedModels := cachedModels + [model];
        saved := Save(writeOk);
      }
    }
  }

  // ---- round trip -------------------------------------------------------------------------

  lemma {:induction false} ItemsRoundTrip(strings: seq<string>)
    ensures StringsOf(Items(strings)) == strings
  {
    if strings != [] {
      ItemsRoundTrip(strings[1..]);
      assert Items(strings)[1..] == Items(strings[1..]);
    }
  }

  /** Whatever was saved is what a restarted agent loads, over whatever it held before. */
  lemma SaveThenLoad(id: Identity, before: Identity)
    requires Enrolled(id)
    ensures LoadStep(before, Parsed(Object(Payload(id)))) == (id, Loaded(true))
  {
    ItemsRoundTrip(id.cached);
    assert Items(id.cached) == [] ==> id.cached == [];
    var a, b, c, d := "node_id", "node_token", "saved_setpoint_c", "cached_models";
    assert |a| == 7 && |b| == 10 && |c| == 16 && |d| == 13;
    hide StringsOf, Items;
  }

  /** The file says who the node is, with a setpoint that is not too large to hold. */
  predicate Usable(file: File) {
    file.Parsed? && file.json.Object? && HasIdentity(file.json.fields) && !SavedTooLarge(file.json.fields)
  }

  /** The file is there but holds no identity in a way that is noticed. */
  predicate Forgotten(file: File) {
    file.Absent? || file.Unreadable? || file.NotJson?
    || (file.Parsed? && file.json.Object? && !HasIdentity(file.json.fields))
  }

  /** An object with an identity beside a setpoint too large to hold. */
  predicate HalfLoaded(file: File) {
    file.Parsed? && file.json.Object? && HasIdentity(file.json.fields) && SavedTooLarge(file.json.fields)
  }

  /** `load` raises on a path that may not be looked at, on bytes that are no text, on JSON
      the parser gives up on, on JSON that is not an object, and on a setpoint too large to
      hold; only then has it changed anything without succeeding, namely the two names. */
  lemma LoadRaisesExactly(id: Identity, file: File)
    ensures LoadStep(id, file).1.Raised? <==>
      file.Barred? || file.NotText? || file.TooMuch? || (file.Parsed? && !file.json.Object?) || HalfLoaded(file)
    ensures LoadStep(id, file).1 == Loaded(true) <==> Usable(file)
    ensures LoadStep(id, file).1 == Loaded(false) <==> Forgotten(file)
    ensures LoadStep(id, file).1 != Loaded(true) && LoadStep(id, file).0 != id ==> HalfLoaded(file)
    ensures HalfLoaded(file) ==> Enrolled(LoadStep(id, file).0)
    ensures LoadStep(id, file).1.Raised? ==> LoadStep(id, file).0.saved == id.saved
    ensures LoadStep(id, file).1.Raised? ==> LoadStep(id, file).0.cached == id.cached
  {}

  // ---- starting the agent -----------------------------------------------------------------

  /** How `main` comes out of loading the state: the agent dies of an exception, refuses to
      start, enrolls afresh, or goes on as the node it was. */
  datatype Start = Crashes | Refuses | Enrolls | Resumes(id: Identity)

  /** `main` from the state file to the agent's first connection. */
  method StartUp(state: AgentState, hasToken: bool) returns (start: Start)
    requires state.Contents() == UNKNOWN
    modifies state
    ensures start == Starts(old(state.file), hasToken) && state.file == old(state.file)
  {
    var outcome := state.Load();
    if outcome.Raised? {
      return Crashes;
    }
    if state.nodeId == None || state.nodeToken == None {
      return if hasToken then Enrolls else Refuses;
    }
    return Resumes(Identity(state.nodeId, state.nodeToken, state.savedSetpoint, state.cachedModels));
  }

  function Starts(file: File, hasToken: bool): Start {
    var (id, outcome) := LoadStep(UNKNOWN, file);
    if outcome.Raised? then Crashes
    else if !Enrolled(id) then (if hasToken then Enrolls else Refuses)
    else Resumes(id)
  }

  /** Which files resume a node, which make it enroll afresh, and which kill the agent: every
      other one does, among them undecodable bytes, JSON that is not an object, and a full
      identity beside a setpoint of some 309 digits. */
  lemma StartsExactly(file: File, hasToken: bool)
    ensures Starts(file, hasToken).Resumes? <==> Usable(file)
    ensures Starts(file, hasToken) == (if hasToken then Enrolls else Refuses) <==> Forgotten(file)
    ensures Starts(file, hasToken).Crashes? <==> !Usable(file) && !Forgotten(file)
    ensures Starts(file, hasToken).Resumes? ==> Enrolled(Starts(file, hasToken).id)
  {}

  /** A call of `save`: the identity held, and whether the write works. */
  datatype SaveCall = SaveCall(id: Identity, writeOk: bool)

  function AfterSaves(file: File, calls: seq<SaveCall>): File {
    if calls == [] then file
    else
      var c := calls[|calls| - 1];
      if c.writeOk && Enrolled(c.id) then Parsed(Object(Payload(c.id))) else AfterSaves(file, calls[..|calls| - 1])
  }

  /** Once a save has succeeded, every later start resumes as the identity of the last save
      that did, with its setpoint and its models. If none did, the file found decides. */
  lemma {:induction false} LastSaveResumes(file: File, calls: seq<SaveCall>, hasToken: bool) returns (k: int)
    ensures -1 <= k < |calls| && forall j :: k < j < |calls| ==> !calls[j].writeOk || !Enrolled(calls[j].id)
    ensures if k == -1 then AfterSaves(file, calls) == file
            else && calls[k].writeOk && Enrolled(calls[k].id)
                 && Starts(AfterSaves(file, calls), hasToken) == Resumes(calls[k].id)
  {
    k := |calls| - 1;
    if calls != [] {
      if calls[k].writeOk && Enrolled(calls[k].id) {
        SaveThenLoad(calls[k].id, UNKNOWN);
        hide LoadStep, Payload;
      } else {
        hide Enrolled, Starts;
        var init := calls[..|calls| - 1];
        k := LastSaveResumes(file, init, hasToken);
        assert forall j :: 0 <= j < |init| ==> init[j] == calls[j];
      }
    }
  }

  // ---- recorded models -----------------------------------------------------------------------

  function Recorded(cached: seq<string>, models: seq<string>): seq<string> {
    if models == [] then cached
    else Added(Recorded(cached, models[..|models| - 1]), models[|models| - 1])
  }

  predicate Distinct(xs: seq<string>) {
    forall i, j :: 0 <= i < j < |xs| ==> xs[i] != xs[j]
  }

  /** Over any run of reports the list holds each reported model once, and nothing else. */
  lemma {:induction false} RecordedExactly(cached: seq<string>, models: seq<string>)
    requires Distinct(cached)
    ensures Distinct(Recorded(cached, models)) && cached <= Recorded(cached, models)
    ensures forall m :: m in Recorded(cached, models) <==> m in cached || (m in models && m != "")
  {
    if models != [] {
      var n := |models| - 1;
      RecordedExactly(cached, models[..n]);
      assert forall m :: m in models <==> m in models[..n] || m == models[n];
    }
  }
}
