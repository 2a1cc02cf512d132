/**
 Migration of the legacy language-model settings (components/app_config/app_config.c, lines
 102-180 and 205-410; components/settings/settings_store.c, lines 53-190).

 The store commits every write and every erase on its own, so power can be lost between any two.
 The model gives the store a budget of commits: when it is spent the next commit fails, and the
 upgrade stops there, as it does on any store error.
 Main results: CrashConvergesIff, UpgradeResult, SecondRunIsNoOp, UserValuesSurvive.
 */
module Migration {
  import opened Common

  /** The settings the migration touches; Field(i) is field i of SIZES, Other any remaining key. */
  datatype Key = Profile | Provider | Field(i: nat) | Other(name: string)

  type Store = map<Key, string>

  /**
   Sizes of the buffers the fields are read into. In order the keys are llm_backend, llm_base_url,
   llm_auth_type, llm_max_toks_f, llm_img_max_b, llm_sup_tools, llm_sup_vis and llm_img_url_o.
   */
  const SIZES: seq<nat> := [32, 320, 32, 32, 16, 8, 8, 8]

  const FIELD_COUNT := 8
  const ID_SIZE := 32   // llm_profile and llm_provider
  const BACKEND := Field(0)
  const OLD_BACKEND := "anthropic"
  const NEW_BACKEND := "anthropic_compatible"

  /** A preset: the legacy id, and one fallback per field in the order of SIZES. */
  datatype Preset = Preset(legacyId: string, fallbacks: Row)

  type Row = row: seq<string> | |row| == FIELD_COUNT witness seq(FIELD_COUNT, _ => "")

  function RowOf(backend: string, baseUrl: string, authType: string, maxTokensField: string): Row {
    [backend, baseUrl, authType, maxTokensField, "524288", "true", "true", "false"]
  }

  const PRESETS: seq<Preset> := [
    Preset("openai", RowOf("openai_compatible", "https://api.openai.com/v1", "bearer", "max_completion_tokens")),
    Preset("qwen", RowOf("openai_compatible", "https://dashscope.aliyuncs.com/compatible-mode/v1", "bearer", "max_tokens")),
    Preset("qwen_compatible",
           RowOf("openai_compatible", "https://dashscope.aliyuncs.com/compatible-mode/v1", "bearer", "max_tokens")),
    Preset("deepseek", RowOf("openai_compatible", "https://api.deepseek.com", "bearer", "max_completion_tokens")),
    Preset("custom_openai_compatible",
           RowOf("openai_compatible", "https://api.openai.com/v1", "bearer", "max_completion_tokens")),
    Preset("anthropic", RowOf("anthropic_compatible", "https://api.anthropic.com/v1", "none", "max_tokens")),
    Preset("claude", RowOf("anthropic_compatible", "https://api.anthropic.com/v1", "none", "max_tokens"))]

  /** Each fallback is non-empty and fits its field's buffer, and no preset falls back to the old backend name. */
  ghost predicate GoodPreset(p: Preset) {
    && (forall i | 0 <= i < FIELD_COUNT :: p.fallbacks[i] != "" && |p.fallbacks[i]| < Size(i))
    && p.fallbacks[0] != OLD_BACKEND
  }

  function Size(i: nat): nat { if i < FIELD_COUNT then SIZES[i] else 0 }

  lemma RowIsGood(id: string, backend: string, baseUrl: string, authType: string, maxTokensField: string)
    requires 0 < |backend| < 32 && 0 < |baseUrl| < 320 && 0 < |authType| < 32 && 0 < |maxTokensField| < 32
    requires |backend| > |OLD_BACKEND|
    ensures GoodPreset(Preset(id, RowOf(backend, baseUrl, authType, maxTokensField)))
  {
  }

  lemma PresetsGood()
    ensures forall k | 0 <= k < |PRESETS| :: GoodPreset(PRESETS[k])
  {
    hide GoodPreset, RowOf;
    RowIsGood("openai", "openai_compatible", "https://api.openai.com/v1", "bearer", "max_completion_tokens");
    RowIsGood("qwen", "openai_compatible", "https://dashscope.aliyuncs.com/compatible-mode/v1", "bearer", "max_tokens");
    RowIsGood("qwen_compatible", "openai_compatible", "https://dashscope.aliyuncs.com/compatible-mode/v1", "bearer",
              "max_tokens");
    RowIsGood("deepseek", "openai_compatible", "https://api.deepseek.com", "bearer", "max_completion_tokens");
    RowIsGood("custom_openai_compatible", "openai_compatible", "https://api.openai.com/v1", "bearer",
              "max_completion_tokens");
    RowIsGood("anthropic", "anthropic_compatible", "https://api.anthropic.com/v1", "none", "max_tokens");
    RowIsGood("claude", "anthropic_compatible", "https://api.anthropic.com/v1", "none", "max_tokens");
    assert GoodPreset(PRESETS[0]);
    assert GoodPreset(PRESETS[1]);
    assert GoodPreset(PRESETS[2]);
    assert GoodPreset(PRESETS[3]);
    assert GoodPreset(PRESETS[4]);
    assert GoodPreset(PRESETS[5]);
    assert GoodPreset(PRESETS[6]);
  }

  function FindPresetFrom(id: string, k: nat): (r: Option<Preset>)
    requires k <= |PRESETS|
    ensures r.Some? ==> r.value in PRESETS && r.value.legacyId == id
    ensures r.None? ==> forall j | k <= j < |PRESETS| :: PRESETS[j].legacyId != id
    decreases |PRESETS| - k
  {
    if k == |PRESETS| then None
    else if PRESETS[k].legacyId == id then Some(PRESETS[k])
    else FindPresetFrom(id, k + 1)
  }

  function FindPreset(id: string): (r: Option<Preset>)
    ensures r.Some? ==> GoodPreset(r.value)
  {
    PresetsGood();
    if id == "" then None else FindPresetFrom(id, 0)
  }

  // ---- Reading ----

  function Lookup(s: Store, key: Key): Option<string> { if key in s then Some(s[key]) else None }

  function Value(s: Store, key: Key): string { if key in s then s[key] else "" }

  /** settings_store_get_string with an empty default: None when the stored string does not fit the buffer. */
  function Get(s: Store, key: Key, size: nat): Option<string> {
    if key in s && |s[key]| + 1 > size then None else Some(Value(s, key))
  }

  predicate Readable(s: Store, i: nat) { Get(s, Field(i), Size(i)).Some? }

  predicate AllReadable(s: Store) { forall i: nat | i < FIELD_COUNT :: Readable(s, i) }

  predicate AllFilled(s: Store) { forall i: nat | i < FIELD_COUNT :: Value(s, Field(i)) != "" }

  // ---- Writing ----

  /** The commits of a run: only those that change the store; erasing an absent key is not one. */
  datatype Write = Put(key: Key, value: string) | Erase(key: Key)

  function Commit(s: Store, w: Write): Store {
    match w
    case Put(key, value) => s[key := value]
    case Erase(key) => s - {key}
  }

  function Replay(s: Store, ws: seq<Write>): Store
    decreases |ws|
  {
    if ws == [] then s else Replay(Commit(s, ws[0]), ws[1..])
  }

  datatype Plan = Plan(ok: bool, writes: seq<Write>)

  /** Fields from the i-th on that are empty get the preset's fallback. */
  function FallbacksFrom(s: Store, p: Preset, i: nat): seq<Write>
    requires i <= FIELD_COUNT
    decreases FIELD_COUNT - i
  {
    if i == FIELD_COUNT then []
    else if Value(s, Field(i)) != "" then FallbacksFrom(s, p, i + 1)
    else [Put(Field(i), p.fallbacks[i])] + FallbacksFrom(s, p, i + 1)
  }

  function Fills(s: Store, preset: Option<Preset>): seq<Write>
  {
    if preset.Some? then FallbacksFrom(s, preset.value, 0) else []
  }

  /** The backend once the fields are filled. */
  function Backend(s: Store, preset: Option<Preset>): string
  {
    if preset.Some? && Value(s, BACKEND) == "" then preset.value.fallbacks[0] else Value(s, BACKEND)
  }

  function ReplaceBackend(backend: string): seq<Write> {
    if backend == OLD_BACKEND then [Put(BACKEND, NEW_BACKEND)] else []
  }

  function EraseIfThere(s: Store, key: Key): seq<Write> { if key in s then [Erase(key)] else [] }

  /** The last part of a run: rename the old backend, then erase the legacy keys. */
  function Finish(s: Store, backend: string): seq<Write> {
    ReplaceBackend(backend) + (EraseIfThere(s, Profile) + EraseIfThere(s, Provider))
  }

  function LegacyId(s: Store): string {
    if Value(s, Profile) != "" then Value(s, Profile) else Value(s, Provider)
  }

  /** What a run that uses this preset commits, in order. */
  ghost function Planned(s: Store, preset: Option<Preset>): Plan
    requires preset.Some? ==> GoodPreset(preset.value)
  {
    if Get(s, Profile, ID_SIZE).None? || Get(s, Provider, ID_SIZE).None? then Plan(false, [])
    else if !Readable(s, 0) || (preset.Some? && !AllReadable(s)) then Plan(false, [])
    else Plan(true, Fills(s, preset) + Finish(s, Backend(s, preset)))
  }

  ghost function PlanOf(s: Store): Plan { Planned(s, FindPreset(LegacyId(s))) }

  ghost function Upgrade(s: Store): Store { Replay(s, PlanOf(s).writes) }

  /** The store when power is lost after k commits. */
  ghost function Crash(s: Store, k: nat): Store
    requires k <= |PlanOf(s).writes|
  {
    Replay(s, PlanOf(s).writes[..k])
  }

  // ---- A run with a fixed preset ----

  lemma FallbacksUnaffected(s: Store, t: Store, p: Preset, i: nat)
    requires i <= FIELD_COUNT
    requires forall j | i <= j < FIELD_COUNT :: Value(s, Field(j)) == Value(t, Field(j))
    ensures FallbacksFrom(s, p, i) == FallbacksFrom(t, p, i)
    decreases FIELD_COUNT - i
  {
    if i < FIELD_COUNT {
      FallbacksUnaffected(s, t, p, i + 1);
    }
  }

  lemma {:induction false} NoFallbacks(s: Store, p: Preset, i: nat)
    requires i <= FIELD_COUNT
    ensures FallbacksFrom(s, p, i) == [] <==> forall j | i <= j < FIELD_COUNT :: Value(s, Field(j)) != ""
    decreases FIELD_COUNT - i
  {
    if i < FIELD_COUNT {
      NoFallbacks(s, p, i + 1);
    }
  }

  lemma {:induction false} FirstFallback(s: Store, p: Preset, i: nat)
    requires i <= FIELD_COUNT && FallbacksFrom(s, p, i) != []
    ensures var w := FallbacksFrom(s, p, i)[0];
      && w.Put? && w.key.Field? && i <= w.key.i < FIELD_COUNT && w.value == p.fallbacks[w.key.i]
      && Value(s, w.key) == "" && (forall j | i <= j < w.key.i :: Value(s, Field(j)) != "")
    decreases FIELD_COUNT - i
  {
    if Value(s, Field(i)) != "" {
      FirstFallback(s, p, i + 1);
    }
  }

  lemma {:induction false} FallbackTail(s: Store, p: Preset, i: nat)
    requires i <= FIELD_COUNT && FallbacksFrom(s, p, i) != []
    requires forall j | 0 <= j < FIELD_COUNT :: p.fallbacks[j] != ""
    ensures FallbacksFrom(Commit(s, FallbacksFrom(s, p, i)[0]), p, i) == FallbacksFrom(s, p, i)[1..]
    decreases FIELD_COUNT - i
  {
    FirstFallback(s, p, i);
    if Value(s, Field(i)) != "" {
      FallbackTail(s, p, i + 1);
    } else {
      FallbacksUnaffected(s, s[Field(i) := p.fallbacks[i]], p, i + 1);
    }
  }

  /** The next fill goes into the first empty field; committing it leaves exactly the other fills to do. */
  lemma FillsStep(s: Store, p: Preset)
    requires GoodPreset(p)
    ensures Fills(s, Some(p)) == [] <==> AllFilled(s)
    ensures Fills(s, Some(p)) != [] ==>
      var w := Fills(s, Some(p))[0];
      && w.Put? && w.key.Field? && w.key.i < FIELD_COUNT && w.value == p.fallbacks[w.key.i]
      && Value(s, w.key) == "" && (forall j: nat | j < w.key.i :: Value(s, Field(j)) != "")
      && Fills(Commit(s, w), Some(p)) == Fills(s, Some(p))[1..]
  {
    NoFallbacks(s, p, 0);
    if Fills(s, Some(p)) != [] {
      FirstFallback(s, p, 0);
      FallbackTail(s, p, 0);
    }
  }

  /** A fill changes neither what can be read, nor what the last part will do. */
  lemma FillKeeps(s: Store, t: Store, p: Preset)
    requires GoodPreset(p) && AllReadable(s) && Fills(s, Some(p)) != [] && t == Commit(s, Fills(s, Some(p))[0])
    ensures AllReadable(t) && Backend(t, Some(p)) == Backend(s, Some(p))
    ensures forall key: Key | !key.Field? :: (key in t <==> key in s) && Value(t, key) == Value(s, key)
    ensures forall backend :: Finish(t, backend) == Finish(s, backend)
  {
    hide ReplaceBackend;
    FillsStep(s, p);
    forall i: nat | i < FIELD_COUNT ensures Readable(t, i) {
      assert Readable(s, i);
    }
  }

  /** While fields are empty the next commit fills one; what is left is the rest of the plan. */
  lemma TailAfterFill(s: Store, p: Preset)
    requires GoodPreset(p) && Planned(s, Some(p)).ok && Fills(s, Some(p)) != []
    ensures var ws := Planned(s, Some(p)).writes;
      ws != [] && ws[0] == Fills(s, Some(p))[0] && Planned(Commit(s, ws[0]), Some(p)) == Plan(true, ws[1..])
  {
    hide Fills, Finish, Backend, GoodPreset;
    var preset := Some(p);
    var fs, tail := Fills(s, preset), Finish(s, Backend(s, preset));
    var t := Commit(s, fs[0]);
    FillsStep(s, p);
    FillKeeps(s, t, p);
    assert (fs + tail)[1..] == fs[1..] + tail;
  }

  /** The first commit of the last part, if it has any. */
  function FirstFinish(s: Store): Option<Write> {
    if Value(s, BACKEND) == OLD_BACKEND then Some(Put(BACKEND, NEW_BACKEND))
    else if Profile in s then Some(Erase(Profile))
    else if Provider in s then Some(Erase(Provider))
    else None
  }

  /** After its first commit the rest of the last part is left, and what was read is read as before. */
  lemma FinishStep(s: Store)
    ensures var ws := Finish(s, Value(s, BACKEND));
      && FirstFinish(s) == (if ws == [] then None else Some(ws[0]))
      && (ws != [] ==> var t := Commit(s, ws[0]); Finish(t, Value(t, BACKEND)) == ws[1..])
  {
  }

  lemma FinishKeeps(s: Store)
    requires FirstFinish(s).Some?
    ensures var t := Commit(s, FirstFinish(s).value);
      && (forall i: nat :: Readable(s, i) ==> Readable(t, i))
      && (forall i: nat :: Value(s, Field(i)) == "" <==> Value(t, Field(i)) == "")
      && Get(t, Profile, ID_SIZE) in {Get(s, Profile, ID_SIZE), Some("")}
      && Get(t, Provider, ID_SIZE) in {Get(s, Provider, ID_SIZE), Some("")}
  {
  }

  /** With the fields filled only the last part is left. */
  lemma OnlyFinish(s: Store, preset: Option<Preset>)
    requires preset.Some? ==> GoodPreset(preset.value)
    requires Planned(s, preset).ok && Fills(s, preset) == []
    ensures Planned(s, preset).writes == Finish(s, Value(s, BACKEND))
  {
    hide Finish, GoodPreset, FallbacksFrom;
    if preset.Some? {
      FillsStep(s, preset.value);
    }
    var finish := Finish(s, Value(s, BACKEND));
    assert [] + finish == finish;
  }

  /** After the fills the next commit is the first of the last part. */
  lemma TailAfterFills(s: Store, preset: Option<Preset>)
    requires preset.Some? ==> GoodPreset(preset.value)
    requires Planned(s, preset).ok && Fills(s, preset) == [] && Planned(s, preset).writes != []
    ensures var ws := Planned(s, preset).writes;
      var t := Commit(s, ws[0]);
      && ws == Finish(s, Value(s, BACKEND)) && Planned(t, preset) == Plan(true, ws[1..])
  {
    hide Finish, GoodPreset, FallbacksFrom, Backend;
    OnlyFinish(s, preset);
    FinishStep(s);
    FinishKeeps(s);
    var t := Commit(s, Planned(s, preset).writes[0]);
    if preset.Some? {
      FillsStep(s, preset.value);
      FillsStep(t, preset.value);
    }
    OnlyFinish(t, preset);
  }

  /** What is left to do after the first commit is what a new run with the same preset would do. */
  lemma PlannedTail(s: Store, preset: Option<Preset>)
    requires preset.Some? ==> GoodPreset(preset.value)
    requires Planned(s, preset).writes != []
    ensures var ws := Planned(s, preset).writes; Planned(Commit(s, ws[0]), preset) == Plan(true, ws[1..])
  {
    if Fills(s, preset) != [] {
      TailAfterFill(s, preset.value);
    } else {
      TailAfterFills(s, preset);
    }
  }

  /** After n commits the rest of the plan is left, and the (n+1)-st commit is its head. */
  lemma {:induction false} PlannedRest(s: Store, preset: Option<Preset>, n: nat)
    requires preset.Some? ==> GoodPreset(preset.value)
    requires Planned(s, preset).ok && n <= |Planned(s, preset).writes|
    ensures var ws := Planned(s, preset).writes;
      && Planned(Replay(s, ws[..n]), preset) == Plan(true, ws[n..])
      && (n < |ws| ==> Replay(s, ws[..n + 1]) == Commit(Replay(s, ws[..n]), ws[n]))
    decreases n
  {
    hide Planned;
    var ws := Planned(s, preset).writes;
    if n == 0 {
      assert ws[..0] == [] && ws[0..] == ws;
      if ws != [] {
        assert ws[..1][1..] == [];
      }
    } else {
      PlannedTail(s, preset);
      var t := Commit(s, ws[0]);
      PlannedRest(t, preset, n - 1);
      assert ws[..n][1..] == ws[1..][..n - 1] && ws[1..][n - 1..] == ws[n..];
      if n < |ws| {
        assert ws[..n + 1][1..] == ws[1..][..n];
      }
    }
  }

  /** With every field filled and readable the preset no longer matters. */
  lemma PresetIrrelevant(s: Store, a: Option<Preset>, b: Option<Preset>)
    requires a.Some? ==> GoodPreset(a.value)
    requires b.Some? ==> GoodPreset(b.value)
    requires AllReadable(s) && AllFilled(s)
    ensures Planned(s, a) == Planned(s, b)
  {
    if a.Some? { FillsStep(s, a.value); }
    if b.Some? { FillsStep(s, b.value); }
  }

  /** Nothing left to do: no legacy key, no old backend name, and with a preset no empty field. */
  lemma NothingLeft(s: Store, preset: Option<Preset>)
    requires preset.Some? ==> GoodPreset(preset.value)
    requires Planned(s, preset) == Plan(true, [])
    ensures Profile !in s && Provider !in s && Value(s, BACKEND) != OLD_BACKEND && Readable(s, 0)
    ensures preset.Some? ==> AllFilled(s)
  {
    assert Fills(s, preset) == [] && Finish(s, Backend(s, preset)) == [];
    if preset.Some? {
      FillsStep(s, preset.value);
    }
    assert EraseIfThere(s, Profile) == [] && EraseIfThere(s, Provider) == [];
  }

  // ---- When a rerun ends where an uninterrupted run would have ----

  /**
   The profile is set to an unknown id, so it hides a provider that is a known preset, and applying
   that preset would not come down to doing nothing. A caller can check this before the upgrade.
   */
  predicate HiddenProvider(s: Store) {
    && Get(s, Profile, ID_SIZE).Some? && Get(s, Provider, ID_SIZE).Some? && Readable(s, 0)
    && Value(s, Profile) != "" && FindPreset(Value(s, Profile)).None?
    && FindPreset(Value(s, Provider)).Some?
    && !(AllReadable(s) && AllFilled(s))
  }

  /** A write that leaves the legacy keys alone leaves the choice of preset alone. */
  lemma KeepsChoice(s: Store, t: Store)
    requires Get(t, Profile, ID_SIZE) == Get(s, Profile, ID_SIZE) && Get(t, Provider, ID_SIZE) == Get(s, Provider, ID_SIZE)
    requires Value(t, Profile) == Value(s, Profile) && Value(t, Provider) == Value(s, Provider)
    requires Readable(t, 0) ==> Readable(s, 0)
    requires AllReadable(s) && AllFilled(s) ==> AllReadable(t) && AllFilled(t)
    ensures LegacyId(t) == LegacyId(s) && (HiddenProvider(t) ==> HiddenProvider(s))
  {
    hide FindPreset, AllReadable, AllFilled;
  }

  lemma PlanTailFill(s: Store)
    requires var preset := FindPreset(LegacyId(s)); PlanOf(s).ok && preset.Some? && Fills(s, preset) != []
    ensures PlanOf(s).writes != []
    ensures var t := Commit(s, PlanOf(s).writes[0]);
      !HiddenProvider(t) && PlanOf(t) == Plan(true, PlanOf(s).writes[1..])
  {
    var preset := FindPreset(LegacyId(s));
    hide FindPreset, FallbacksFrom, Finish, Planned, GoodPreset;
    TailAfterFill(s, preset.value);
    FillsStep(s, preset.value);
    var t := Commit(s, Planned(s, preset).writes[0]);
    assert Value(t, Profile) == Value(s, Profile) && Value(t, Provider) == Value(s, Provider);
    assert LegacyId(t) == LegacyId(s);
  }

  lemma PlanTailFinish(s: Store)
    requires !HiddenProvider(s) && PlanOf(s).ok && PlanOf(s).writes != []
    requires Fills(s, FindPreset(LegacyId(s))) == []
    ensures var t := Commit(s, PlanOf(s).writes[0]);
      !HiddenProvider(t) && PlanOf(t) == Plan(true, PlanOf(s).writes[1..])
  {
    var preset := FindPreset(LegacyId(s));
    hide FindPreset, FallbacksFrom, Finish, Planned, GoodPreset, HiddenProvider, AllReadable, AllFilled;
    TailAfterFills(s, preset);
    FinishStep(s);
    var ws := Planned(s, preset).writes;
    var t := Commit(s, ws[0]);
    if ws[0].Put? {
      RenameKeepsChoice(s);
    } else {
      EraseKeepsPlan(s, t, preset);
    }
  }

  lemma RenameKeepsChoice(s: Store)
    requires Value(s, BACKEND) == OLD_BACKEND && !HiddenProvider(s)
    ensures var t := s[BACKEND := NEW_BACKEND]; LegacyId(t) == LegacyId(s) && !HiddenProvider(t)
  {
    hide FindPreset, HiddenProvider;
    var t := s[BACKEND := NEW_BACKEND];
    if AllReadable(s) && AllFilled(s) {
      FilledStays(s, t);
    }
    KeepsChoice(s, t);
  }

  /** The first commit does not hide a provider, and a new run chooses a preset with the same plan. */
  lemma PlanTail(s: Store)
    requires !HiddenProvider(s) && PlanOf(s).writes != []
    ensures var t := Commit(s, PlanOf(s).writes[0]);
      !HiddenProvider(t) && PlanOf(t) == Plan(true, PlanOf(s).writes[1..])
  {
    WritesMeanOk(s);
    hide PlanOf, HiddenProvider, FindPreset;
    if Fills(s, FindPreset(LegacyId(s))) != [] {
      PlanTailFill(s);
    } else {
      PlanTailFinish(s);
    }
  }

  lemma WritesMeanOk(s: Store)
    ensures PlanOf(s).writes != [] ==> PlanOf(s).ok
  {
    hide FindPreset;
  }

  lemma FilledStays(s: Store, t: Store)
    requires AllReadable(s) && AllFilled(s)
    requires
      || t == s[BACKEND := NEW_BACKEND]
      || forall i: nat :: (Field(i) in s <==> Field(i) in t) && Value(t, Field(i)) == Value(s, Field(i))
    ensures AllReadable(t) && AllFilled(t)
  {
    forall i: nat | i < FIELD_COUNT ensures Readable(t, i) && Value(t, Field(i)) != "" {
      assert Readable(s, i) && Value(s, Field(i)) != "";
    }
  }

  lemma EraseKeepsPlan(s: Store, t: Store, preset: Option<Preset>)
    requires !HiddenProvider(s) && preset == FindPreset(LegacyId(s)) && Planned(s, preset).ok && Fills(s, preset) == []
    requires t == s - {Profile} || (t == s - {Provider} && Profile !in s)
    ensures !HiddenProvider(t) && PlanOf(t) == Planned(t, preset)
  {
    hide FallbacksFrom, Finish, FindPresetFrom, PRESETS;
    var preset' := FindPreset(LegacyId(t));
    if preset' != preset {
      EraseChangesChoice(s, t, preset);
      FilledStays(s, t);
      PresetIrrelevant(t, preset, preset');
    }
  }

  /** If erasing a legacy key changes which preset is chosen, there is nothing left to fill. */
  lemma EraseChangesChoice(s: Store, t: Store, preset: Option<Preset>)
    requires !HiddenProvider(s) && preset == FindPreset(LegacyId(s)) && Planned(s, preset).ok && Fills(s, preset) == []
    requires t == s - {Profile} || (t == s - {Provider} && Profile !in s)
    requires FindPreset(LegacyId(t)) != preset
    ensures AllReadable(s) && AllFilled(s)
  {
    assert FindPreset("") == None;
    hide FallbacksFrom, Finish, FindPreset, Fills, GoodPreset;
    assert Value(s, Profile) != "" || Provider !in t;
    if preset.Some? {
      FillsStep(s, preset.value);
    }
  }

  /** Stopping after any number of commits and running again gives what one uninterrupted run gives. */
  lemma {:induction false} CrashConverges(s: Store, k: nat)
    requires !HiddenProvider(s) && k <= |PlanOf(s).writes|
    ensures Upgrade(Crash(s, k)) == Upgrade(s) && !HiddenProvider(Crash(s, k))
    decreases k
  {
    hide PlanOf, HiddenProvider;
    var ws := PlanOf(s).writes;
    if k == 0 {
      assert ws[..0] == [];
    } else {
      PlanTail(s);
      var t := Commit(s, ws[0]);
      assert ws[..k][0] == ws[0] && ws[..k][1..] == ws[1..][..k - 1];
      CrashConverges(t, k - 1);
    }
  }

  /** The store after runs that each lost power after so many commits, or went through if there were fewer. */
  ghost function Interrupted(s: Store, cuts: seq<nat>): Store
    decreases |cuts|
  {
    if cuts == [] then s
    else
      var n := |PlanOf(s).writes|;
      Interrupted(Crash(s, if cuts[0] < n then cuts[0] else n), cuts[1..])
  }

  lemma CrashOnce(s: Store, k: nat)
    requires k <= |PlanOf(s).writes|
    ensures Interrupted(s, [k]) == Crash(s, k)
  {
    hide PlanOf, Crash;
    var n := |PlanOf(s).writes|;
    assert [k][1..] == [] && k == if k < n then k else n;
    assert Interrupted(Crash(s, k), []) == Crash(s, k);
  }

  /** However often power is lost, one more run ends where a single uninterrupted one would have. */
  lemma {:induction false} CrashesConverge(s: Store, cuts: seq<nat>)
    requires !HiddenProvider(s)
    ensures Upgrade(Interrupted(s, cuts)) == Upgrade(s)
    decreases |cuts|
  {
    hide PlanOf, HiddenProvider, Crash, Upgrade;
    if cuts != [] {
      var n := |PlanOf(s).writes|;
      var k := if cuts[0] < n then cuts[0] else n;
      CrashConverges(s, k);
      CrashesConverge(Crash(s, k), cuts[1..]);
    }
  }

  // ---- The failing family ----

  lemma {:induction false} ReplayUntouched(s: Store, ws: seq<Write>, key: Key)
    requires forall w | w in ws :: w.key != key
    ensures Value(Replay(s, ws), key) == Value(s, key)
    ensures key in Replay(s, ws) <==> key in s
    decreases |ws|
  {
    if ws != [] {
      ReplayUntouched(Commit(s, ws[0]), ws[1..], key);
    }
  }

  lemma HiddenPlan(s: Store)
    requires HiddenProvider(s)
    ensures PlanOf(s) == Planned(s, None)
    ensures Planned(s, None) == Plan(true, ReplaceBackend(Value(s, BACKEND)) + [Erase(Profile), Erase(Provider)])
  {
    hide FindPresetFrom;
    OnlyFinish(s, None);
    assert Profile in s;
    assert FindPreset("").None?;
    assert Provider in s;
    assert EraseIfThere(s, Profile) + EraseIfThere(s, Provider) == [Erase(Profile), Erase(Provider)];
    assert FindPreset(LegacyId(s)) == None;
    assert Planned(s, None).ok;
    assert PlanOf(s) == Planned(s, None);
    assert Planned(s, None).writes == Finish(s, Value(s, BACKEND));
    assert Finish(s, Value(s, BACKEND)) == ReplaceBackend(Value(s, BACKEND)) + [Erase(Profile), Erase(Provider)];
    assert Planned(s, None) == Plan(true, Planned(s, None).writes);
  }

  /** With a hidden provider, losing power between the two erases makes the rerun end elsewhere. */
  lemma HiddenProviderDiverges(s: Store) returns (k: nat)
    requires HiddenProvider(s)
    ensures k <= |PlanOf(s).writes| && Upgrade(Crash(s, k)) != Upgrade(s)
  {
    hide Planned, GoodPreset;
    HiddenPlan(s);
    var ws := Planned(s, None).writes;
    k := |ws| - 1;
    var t := Replay(s, ws[..k]);
    PlannedRest(s, None, k);
    assert ws[k..] == [Erase(Provider)] && ws[..k + 1] == ws;
    assert Upgrade(s) == t - {Provider};
    ReplayUntouched(s, ws[..k], Provider);
    OneEraseLeft(t);
    var preset := FindPreset(LegacyId(t));
    if Planned(t, preset).ok {
      HiddenRerunFills(s, t, ws[..k], preset);
    } else {
      NotOkStays(t);
    }
  }

  lemma OneEraseLeft(t: Store)
    requires Planned(t, None) == Plan(true, [Erase(Provider)])
    ensures Profile !in t && Provider in t
  {
    hide Finish, Planned;
    OnlyFinish(t, None);
    FinishStep(t);
  }

  lemma NotOkStays(t: Store)
    requires !PlanOf(t).ok
    ensures Upgrade(t) == t
  {
  }

  lemma HiddenRerunFills(s: Store, t: Store, ws: seq<Write>, preset: Option<Preset>)
    requires Readable(s, 0) && !(AllReadable(s) && AllFilled(s))
    requires ws == ReplaceBackend(Value(s, BACKEND)) + [Erase(Profile)] && t == Replay(s, ws)
    requires preset.Some? && GoodPreset(preset.value) && Planned(t, preset).ok
    ensures Replay(t, Planned(t, preset).writes) != t - {Provider}
  {
    hide Finish, Fills, GoodPreset, Replay, ReplaceBackend;
    var rs := Planned(t, preset).writes;
    PlannedRest(t, preset, |rs|);
    assert rs[..|rs|] == rs && rs[|rs|..] == [];
    NothingLeft(Replay(t, rs), preset);
    var i := StillEmpty(s, t, ws);
    assert Value(t - {Provider}, Field(i)) == "";
  }

  /** A field that was empty or unreadable at the start, and can be read before the last erase, is empty then. */
  lemma StillEmpty(s: Store, t: Store, ws: seq<Write>) returns (i: nat)
    requires Readable(s, 0) && !(AllReadable(s) && AllFilled(s)) && AllReadable(t)
    requires ws == ReplaceBackend(Value(s, BACKEND)) + [Erase(Profile)] && t == Replay(s, ws)
    ensures i < FIELD_COUNT && Value(t, Field(i)) == ""
  {
    hide Replay;
    i :| i < FIELD_COUNT && (!Readable(s, i) || Value(s, Field(i)) == "");
    ReplayUntouched(s, ws, Field(i));
    assert Readable(t, i);
  }

  /**
   The law and its exact range: any sequence of crashes followed by a rerun converges if and only if no
   known provider is hidden behind an unknown profile with something left to fill in; one crash is enough
   to tell.
   */
  lemma CrashConvergesIff(s: Store)
    ensures (forall cuts :: Upgrade(Interrupted(s, cuts)) == Upgrade(s)) <==> !HiddenProvider(s)
    ensures (forall k: nat | k <= |PlanOf(s).writes| :: Upgrade(Crash(s, k)) == Upgrade(s)) <==> !HiddenProvider(s)
  {
    hide PlanOf, HiddenProvider, Crash, Upgrade;
    if HiddenProvider(s) {
      var k := HiddenProviderDiverges(s);
      CrashOnce(s, k);
      assert Upgrade(Interrupted(s, [k])) != Upgrade(s);
    } else {
      forall k: nat | k <= |PlanOf(s).writes| ensures Upgrade(Crash(s, k)) == Upgrade(s) {
        CrashConverges(s, k);
      }
      forall cuts ensures Upgrade(Interrupted(s, cuts)) == Upgrade(s) {
        CrashesConverge(s, cuts);
      }
    }
  }

  const HIDING: Store := map[Profile := "x", Provider := "openai"]

  /**
   A store in which it happens: an uninterrupted run leaves it empty, but if power is lost after the
   first erase the next run takes the provider for the chosen one and fills the fields from its preset.
   */
  lemma HidingStore()
    ensures HiddenProvider(HIDING) && |PlanOf(HIDING).writes| == 2
    ensures BACKEND !in Upgrade(HIDING)
    ensures Lookup(Upgrade(Crash(HIDING, 1)), BACKEND) == Some("openai_compatible")
  {
    hide PRESETS, FindPreset, Planned;
    HidingHides();
    HiddenPlan(HIDING);
    UpgradeResult(HIDING, BACKEND);
    assert [Erase(Profile), Erase(Provider)][..1] == [Erase(Profile)];
    assert Crash(HIDING, 1) == HIDING - {Profile};
    RerunFills(HIDING - {Profile});
  }

  lemma HidingHides()
    ensures HiddenProvider(HIDING) && ReplaceBackend(Value(HIDING, BACKEND)) == []
  {
    hide FindPreset, PRESETS;
    PresetIds();
    assert Value(HIDING, BACKEND) == "";
  }

  lemma RerunFills(t: Store)
    requires t == map[Provider := "openai"]
    ensures Lookup(Upgrade(t), BACKEND) == Some("openai_compatible")
  {
    hide FindPreset, PRESETS, Fills, Finish, GoodPreset;
    PresetIds();
    assert LegacyId(t) == "openai";
    forall i: nat ensures Readable(t, i) {
    }
    assert PlanOf(t).ok;
    UpgradeResult(t, BACKEND);
  }

  lemma PresetIds()
    ensures FindPreset("x") == None
    ensures FindPreset("openai").Some? && FindPreset("openai").value.fallbacks[0] == "openai_compatible"
  {
    forall k | 0 <= k < |PRESETS| ensures PRESETS[k].legacyId != "x" {
      assert |PRESETS[k].legacyId| > 1;
    }
    assert PRESETS[0].legacyId == "openai";
  }

  /** In particular it converges whenever the profile is empty or a known preset id. */
  lemma KnownProfileConverges(s: Store, k: nat)
    requires Value(s, Profile) == "" || FindPreset(Value(s, Profile)).Some?
    requires k <= |PlanOf(s).writes|
    ensures Upgrade(Crash(s, k)) == Upgrade(s)
  {
    CrashConverges(s, k);
  }

  // ---- What a complete run leaves behind ----

  /**
   What every key should end with: legacy keys gone, empty fields filled from the preset, the old
   backend name renamed, everything else as it was.
   */
  function Intended(s: Store, preset: Option<Preset>, key: Key): Option<string> {
    match key
    case Profile => None
    case Provider => None
    case Other(_) => Lookup(s, key)
    case Field(i) =>
      if Value(s, key) == "" && preset.Some? && i < FIELD_COUNT then Some(preset.value.fallbacks[i])
      else if i == 0 && Value(s, key) == OLD_BACKEND then Some(NEW_BACKEND)
      else Lookup(s, key)
  }

  /** No commit of a run changes what is intended. */
  lemma IntendedKept(s: Store, preset: Option<Preset>, key: Key)
    requires preset.Some? ==> GoodPreset(preset.value)
    requires Planned(s, preset).ok && Planned(s, preset).writes != []
    ensures Intended(Commit(s, Planned(s, preset).writes[0]), preset, key) == Intended(s, preset, key)
  {
    hide FallbacksFrom, Finish, Planned, Backend;
    if Fills(s, preset) != [] {
      TailAfterFill(s, preset.value);
      FillsStep(s, preset.value);
    } else {
      TailAfterFills(s, preset);
      FinishStep(s);
      if preset.Some? {
        FillsStep(s, preset.value);
      }
    }
  }

  lemma {:induction false} PlannedReaches(s: Store, preset: Option<Preset>, key: Key)
    requires preset.Some? ==> GoodPreset(preset.value)
    requires Planned(s, preset).ok
    ensures Lookup(Replay(s, Planned(s, preset).writes), key) == Intended(s, preset, key)
    decreases |Planned(s, preset).writes|
  {
    if Planned(s, preset).writes == [] {
      NothingLeft(s, preset);
    } else {
      PlannedTail(s, preset);
      IntendedKept(s, preset, key);
      PlannedReaches(Commit(s, Planned(s, preset).writes[0]), preset, key);
    }
  }

  /** An uninterrupted run that can read everything ends with every key as intended, present or absent. */
  lemma UpgradeResult(s: Store, key: Key)
    requires PlanOf(s).ok
    ensures Lookup(Upgrade(s), key) == Intended(s, FindPreset(LegacyId(s)), key)
  {
    PlannedReaches(s, FindPreset(LegacyId(s)), key);
  }

  lemma RunEnds(s: Store)
    requires PlanOf(s).ok
    ensures Planned(Upgrade(s), FindPreset(LegacyId(s))) == Plan(true, [])
    ensures Profile !in Upgrade(s) && Provider !in Upgrade(s)
  {
    var preset := FindPreset(LegacyId(s));
    var ws := PlanOf(s).writes;
    PlannedRest(s, preset, |ws|);
    assert ws[..|ws|] == ws && ws[|ws|..] == [];
    NothingLeft(Upgrade(s), preset);
  }

  /** A second run after a complete one commits nothing, for every store. */
  lemma SecondRunIsNoOp(s: Store)
    ensures PlanOf(Upgrade(s)).writes == []
    ensures Upgrade(Upgrade(s)) == Upgrade(s)
  {
    if PlanOf(s).ok {
      var t := Upgrade(s);
      RunEnds(s);
      NothingLeft(t, FindPreset(LegacyId(s)));
      assert Finish(t, Value(t, BACKEND)) == [];
      assert Planned(t, None) == Plan(true, []);
    }
  }

  /** The keys a run writes: empty fields, the backend if it has the old name, and the legacy keys. */
  lemma {:induction false} PlannedKeys(s: Store, preset: Option<Preset>, k: nat)
    requires preset.Some? ==> GoodPreset(preset.value)
    requires Planned(s, preset).ok && k < |Planned(s, preset).writes|
    ensures var key := Planned(s, preset).writes[k].key;
      || key == Profile || key == Provider || Value(s, key) == "" || (key == BACKEND && Value(s, key) == OLD_BACKEND)
    decreases k
  {
    hide GoodPreset, FallbacksFrom, Finish, Backend, Planned;
    var ws := Planned(s, preset).writes;
    if Fills(s, preset) != [] {
      TailAfterFill(s, preset.value);
      FillsStep(s, preset.value);
      if k > 0 {
        PlannedKeys(Commit(s, ws[0]), preset, k - 1);
      }
    } else {
      TailAfterFills(s, preset);
      FinishKeys(s);
    }
  }

  lemma FinishKeys(s: Store)
    ensures forall w | w in Finish(s, Value(s, BACKEND)) ::
              w.key == Profile || w.key == Provider || (w.key == BACKEND && Value(s, BACKEND) == OLD_BACKEND)
  {
  }

  /** At every point of a run each non-empty setting has its old value, except the old backend name being renamed. */
  lemma UserValuesSurvive(s: Store, k: nat, key: Key)
    requires k <= |PlanOf(s).writes| && key != Profile && key != Provider && Value(s, key) != ""
    requires !(key == BACKEND && Value(s, key) == OLD_BACKEND)
    ensures Value(Crash(s, k), key) == Value(s, key)
  {
    var ws := PlanOf(s).writes;
    forall w | w in ws[..k] ensures w.key != key {
      var j: nat :| j < k && ws[j] == w;
      PlannedKeys(s, FindPreset(LegacyId(s)), j);
    }
    ReplayUntouched(s, ws[..k], key);
  }

  /** The store s is reached by the first n commits of the run, and only the last part is left. */
  ghost predicate InLastPart(start: Store, preset: Option<Preset>, n: nat, s: Store) {
    && (preset.Some? ==> GoodPreset(preset.value))
    && Planned(start, preset).ok
    && n <= |Planned(start, preset).writes|
    && s == Replay(start, Planned(start, preset).writes[..n])
    && Fills(s, preset) == []
  }

  lemma LastPartFacts(start: Store, preset: Option<Preset>, n: nat, s: Store)
    requires InLastPart(start, preset, n, s)
    ensures Readable(s, 0) && n <= |Planned(start, preset).writes|
    ensures n == |Planned(start, preset).writes| <==> FirstFinish(s) == None
    ensures n < |Planned(start, preset).writes| ==> FirstFinish(s) == Some(Planned(start, preset).writes[n])
  {
    hide Finish, GoodPreset, FirstFinish, Fills;
    PlannedRest(start, preset, n);
    OnlyFinish(s, preset);
    FinishStep(s);
  }

  lemma LastPartMove(start: Store, preset: Option<Preset>, n: nat, s: Store)
    requires InLastPart(start, preset, n, s) && FirstFinish(s).Some?
    ensures InLastPart(start, preset, n + 1, Commit(s, FirstFinish(s).value))
  {
    hide Finish, GoodPreset, FirstFinish, FallbacksFrom, Planned;
    LastPartFacts(start, preset, n, s);
    FinishKeeps(s);
    PlannedRest(start, preset, n);
    if preset.Some? {
      FillsStep(s, preset.value);
      FillsStep(Commit(s, FirstFinish(s).value), preset.value);
    }
  }

  /** In the last part of a run: whether it is over, and if not where the next commit leads. */
  lemma LastPartStep(start: Store, preset: Option<Preset>, n: nat, s: Store)
    requires InLastPart(start, preset, n, s)
    ensures Readable(s, 0) && n <= |Planned(start, preset).writes|
    ensures FirstFinish(s) == None <==> n == |Planned(start, preset).writes|
    ensures FirstFinish(s).Some? ==> InLastPart(start, preset, n + 1, Commit(s, FirstFinish(s).value))
  {
    hide InLastPart, FirstFinish;
    LastPartFacts(start, preset, n, s);
    if FirstFinish(s).Some? {
      LastPartMove(start, preset, n, s);
    }
  }

  // ---- The code ----

  /** The settings store with power for a limited number of commits. */
  class SettingsStore {
    var entries: Store
    var budget: nat

    constructor (entries: Store, budget: nat)
      ensures this.entries == entries && this.budget == budget
    {
      this.entries, this.budget := entries, budget;
    }

    method GetString(key: Key, size: nat) returns (ok: bool, value: string)
      ensures Get(entries, key, size) == if ok then Some(value) else None
    {
      if key !in entries {
        return true, "";
      }
      value := entries[key];
      ok := |value| + 1 <= size;
    }

    method SetString(key: Key, value: string) returns (ok: bool)
      modifies this
      ensures ok <==> old(budget) > 0
      ensures if ok then entries == Commit(old(entries), Put(key, value)) && budget == old(budget) - 1
              else entries == old(entries) && budget == old(budget)
    {
      if budget == 0 {
        return false;
      }
      entries := entries[key := value];
      budget := budget - 1;
      return true;
    }

    method EraseKey(key: Key) returns (ok: bool)
      modifies this
      ensures ok <==> key !in old(entries) || old(budget) > 0
      ensures if ok && key in old(entries) then entries == Commit(old(entries), Erase(key)) && budget == old(budget) - 1
              else entries == old(entries) && budget == old(budget)
    {
      if key !in entries {
        return true;
      }
      if budget == 0 {
        return false;
      }
      entries := entries - {key};
      budget := budget - 1;
      return true;
    }

    /** app_config_write_if_empty. */
    method WriteIfEmpty(key: Key, current: string, fallback: string) returns (ok: bool, value: string)
      modifies this
      ensures ok <==> current != "" || old(budget) > 0
      ensures value == if ok && current == "" then fallback else current
      ensures if ok && current == ""
              then entries == Commit(old(entries), Put(key, fallback)) && budget == old(budget) - 1
              else entries == old(entries) && budget == old(budget)
    {
      value := current;
      if current != "" {
        return true, value;
      }
      ok := SetString(key, fallback);
      if ok {
        value := fallback;
      }
    }

    /** app_config_replace_if_match. */
    method ReplaceIfMatch(key: Key, current: string, expected: string, replacement: string)
      returns (ok: bool, value: string)
      modifies this
      ensures ok <==> current != expected || old(budget) > 0
      ensures value == if ok && current == expected then replacement else current
      ensures if ok && current == expected
              then entries == Commit(old(entries), Put(key, replacement)) && budget == old(budget) - 1
              else entries == old(entries) && budget == old(budget)
    {
      value := current;
      if current != expected {
        return true, value;
      }
      ok := SetString(key, replacement);
      if ok {
        value := replacement;
      }
    }

    /** The store is some commits into the run planned at the start, one for each unit of budget spent. */
    ghost predicate OnPlan(start: Store, preset: Option<Preset>, power: nat)
      reads this
    {
      && (preset.Some? ==> GoodPreset(preset.value))
      && Planned(start, preset).ok
      && var ws := Planned(start, preset).writes;
         && 0 <= power - budget <= |ws|
         && entries == Replay(start, ws[..power - budget])
    }

    /** The block that fills the fields from a preset; stops at the first commit that fails. */
    method FillFields(p: Preset, values: seq<string>, ghost start: Store, ghost power: nat) returns (ok: bool)
      requires OnPlan(start, Some(p), power) && |values| == FIELD_COUNT
      requires forall i | 0 <= i < FIELD_COUNT :: values[i] == Value(entries, Field(i))
      modifies this
      ensures OnPlan(start, Some(p), power)
      ensures if ok then AllFilled(entries) else budget == 0 && power < |Planned(start, Some(p)).writes|
    {
      hide Planned, Fills, Size, FallbacksFrom, Replay, Readable;
      for i := 0 to FIELD_COUNT
        invariant OnPlan(start, Some(p), power)
        invariant forall j | 0 <= j < i :: Value(entries, Field(j)) != ""
        invariant forall j | i <= j < FIELD_COUNT :: Value(entries, Field(j)) == values[j]
      {
        FillsStep(entries, p);
        PlannedRest(start, Some(p), power - budget);
        if values[i] == "" {
          TailAfterFill(entries, p);
        }
        var value;
        ok, value := WriteIfEmpty(Field(i), values[i], p.fallbacks[i]);
        if !ok {
          return;
        }
      }
      ok := true;
    }

    /** The last part, once the fields are filled. */
    method FinishUpgrade(ghost preset: Option<Preset>, ghost start: Store, ghost power: nat) returns (ok: bool)
      requires budget <= power && InLastPart(start, preset, power - budget, entries)
      modifies this
      ensures budget <= power && InLastPart(start, preset, power - budget, entries)
      ensures var ws := Planned(start, preset).writes;
        if ok then power - budget == |ws| else budget == 0 && power < |ws|
    {
      hide InLastPart, Planned;
      LastPartStep(start, preset, power - budget, entries);
      var backend;
      ok, backend := GetString(BACKEND, 32);
      ok, backend := ReplaceIfMatch(BACKEND, backend, OLD_BACKEND, NEW_BACKEND);
      if !ok {
        return;
      }
      LastPartStep(start, preset, power - budget, entries);
      ok := EraseKey(Profile);
      if !ok {
        return;
      }
      LastPartStep(start, preset, power - budget, entries);
      ok := EraseKey(Provider);
      if ok {
        LastPartStep(start, preset, power - budget, entries);
      }
    }

    /**
     app_config_upgrade_legacy_llm_settings: it commits the planned writes in order, all of them or
     as many as there is power for.
     */
    method UpgradeLegacy() returns (ok: bool)
      modifies this
      ensures var plan := PlanOf(old(entries));
        && (ok <==> plan.ok && |plan.writes| <= old(budget))
        && entries == if |plan.writes| <= old(budget) then Upgrade(old(entries)) else Crash(old(entries), old(budget))
    {
      hide GoodPreset, FallbacksFrom, Finish, FindPreset;
      ghost var start, power := entries, budget;
      var profile, provider;
      ok, profile := GetString(Profile, ID_SIZE);
      if !ok {
        return;
      }
      ok, provider := GetString(Provider, ID_SIZE);
      if !ok {
        return;
      }
      var preset := FindPreset(if profile != "" then profile else provider);
      ghost var ws := Planned(start, preset).writes;
      assert ws[..0] == [];
      if preset.Some? {
        var values := [];
        for i := 0 to FIELD_COUNT
          invariant entries == start && budget == power && |values| == i
          invariant forall j: nat | j < i :: Readable(start, j) && values[j] == Value(start, Field(j))
        {
          var value;
          ok, value := GetString(Field(i), SIZES[i]);
          if !ok {
            assert !Readable(start, i);
            return;
          }
          values := values + [value];
        }
        ok := FillFields(preset.value, values, start, power);
        if !ok {
          return;
        }
        FillsStep(entries, preset.value);
      } else {
        var backend;
        ok, backend := GetString(BACKEND, 32);
        if !ok {
          return;
        }
      }
      ok := FinishUpgrade(preset, start, power);
      assert ws[..|ws|] == ws;
    }
  }
}
