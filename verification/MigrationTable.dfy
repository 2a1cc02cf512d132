/**
 The migration's outcome with its literal names and sizes (components/app_config/app_config.c, lines
 102-180 and 262-410): the seven presets, which preset a store selects, and what every key ends with.
 Main results: SevenPresets, UpgradeMeans, UpgradeRefused.
 */
module MigrationTable {
  import opened Common
  import opened Migration

  lemma IdsApart(i: nat, j: nat)
    requires i < j < |PRESETS|
    ensures PRESETS[i].legacyId != PRESETS[j].legacyId
  {
    var lengths := [6, 4, 15, 8, 24, 9, 6];
    assert |PRESETS[i].legacyId| == lengths[i] && |PRESETS[j].legacyId| == lengths[j];
    assert PRESETS[0].legacyId[0] == 'o' && PRESETS[6].legacyId[0] == 'c';
  }

  lemma FoundAt(k: nat)
    requires k < |PRESETS|
    ensures PRESETS[k].legacyId != "" && FindPreset(PRESETS[k].legacyId) == Some(PRESETS[k])
  {
    NoEmptyId(k);
    hide PRESETS;
    var found := FindPreset(PRESETS[k].legacyId);
    if found.Some? {
      var j :| 0 <= j < |PRESETS| && PRESETS[j] == found.value;
      if j < k {
        IdsApart(j, k);
      } else if k < j {
        IdsApart(k, j);
      }
    }
  }

  lemma NoEmptyId(k: nat)
    requires k < |PRESETS|
    ensures PRESETS[k].legacyId != ""
  {
    var lengths := [6, 4, 15, 8, 24, 9, 6];
    assert |PRESETS[k].legacyId| == lengths[k];
  }

  /** A preset with these four fallbacks, and the four that all presets share. */
  ghost predicate Falls(p: Option<Preset>, backend: string, baseUrl: string, authType: string, maxTokensField: string) {
    && p.Some?
    && p.value.fallbacks[0] == backend && p.value.fallbacks[1] == baseUrl
    && p.value.fallbacks[2] == authType && p.value.fallbacks[3] == maxTokensField
    && p.value.fallbacks[4] == "524288" && p.value.fallbacks[5] == "true"
    && p.value.fallbacks[6] == "true" && p.value.fallbacks[7] == "false"
  }

  lemma RowFalls(id: string, backend: string, baseUrl: string, authType: string, maxTokensField: string)
    ensures Falls(Some(Preset(id, RowOf(backend, baseUrl, authType, maxTokensField))), backend, baseUrl, authType, maxTokensField)
  {
  }

  /** The presets there are, and their fallbacks. */
  lemma SevenPresets()
    ensures Falls(FindPreset("openai"), "openai_compatible", "https://api.openai.com/v1", "bearer", "max_completion_tokens")
    ensures Falls(FindPreset("qwen"),
                  "openai_compatible", "https://dashscope.aliyuncs.com/compatible-mode/v1", "bearer", "max_tokens")
    ensures Falls(FindPreset("qwen_compatible"),
                  "openai_compatible", "https://dashscope.aliyuncs.com/compatible-mode/v1", "bearer", "max_tokens")
    ensures Falls(FindPreset("deepseek"), "openai_compatible", "https://api.deepseek.com", "bearer", "max_completion_tokens")
    ensures Falls(FindPreset("custom_openai_compatible"),
                  "openai_compatible", "https://api.openai.com/v1", "bearer", "max_completion_tokens")
    ensures Falls(FindPreset("anthropic"), "anthropic_compatible", "https://api.anthropic.com/v1", "none", "max_tokens")
    ensures Falls(FindPreset("claude"), "anthropic_compatible", "https://api.anthropic.com/v1", "none", "max_tokens")
  {
    hide Falls, FindPreset, RowOf;
    FoundAt(0);
    FoundAt(1);
    FoundAt(2);
    FoundAt(3);
    FoundAt(4);
    FoundAt(5);
    FoundAt(6);
    RowFalls("openai", "openai_compatible", "https://api.openai.com/v1", "bearer", "max_completion_tokens");
    RowFalls("qwen", "openai_compatible", "https://dashscope.aliyuncs.com/compatible-mode/v1", "bearer", "max_tokens");
    RowFalls("qwen_compatible", "openai_compatible", "https://dashscope.aliyuncs.com/compatible-mode/v1", "bearer",
             "max_tokens");
    RowFalls("deepseek", "openai_compatible", "https://api.deepseek.com", "bearer", "max_completion_tokens");
    RowFalls("custom_openai_compatible", "openai_compatible", "https://api.openai.com/v1", "bearer",
             "max_completion_tokens");
    RowFalls("anthropic", "anthropic_compatible", "https://api.anthropic.com/v1", "none", "max_tokens");
    RowFalls("claude", "anthropic_compatible", "https://api.anthropic.com/v1", "none", "max_tokens");
  }

  /** No other id has a preset, and the empty one has none. */
  lemma NoOtherPreset(id: string)
    ensures FindPreset(id).Some? ==>
              id in {"openai", "qwen", "qwen_compatible", "deepseek", "custom_openai_compatible", "anthropic", "claude"}
  {
    hide RowOf, GoodPreset;
    if id != "" && FindPresetFrom(id, 0).Some? {
      var p := FindPresetFrom(id, 0).value;
      var k :| 0 <= k < |PRESETS| && PRESETS[k] == p;
    }
  }

  /** The value of a key, or nothing, fits a buffer of this size with its terminator. */
  ghost predicate FitsIn(s: Store, key: Key, size: nat) { key in s ==> |s[key]| < size }

  /** The keys a run reads fit their buffers: the two legacy ids, the backend, and with a preset all eight fields. */
  ghost predicate AllFit(s: Store, preset: Option<Preset>) {
    && FitsIn(s, Profile, 32) && FitsIn(s, Provider, 32) && FitsIn(s, Field(0), 32)
    && (preset.Some? ==>
          && FitsIn(s, Field(1), 320) && FitsIn(s, Field(2), 32) && FitsIn(s, Field(3), 32)
          && FitsIn(s, Field(4), 16) && FitsIn(s, Field(5), 8) && FitsIn(s, Field(6), 8) && FitsIn(s, Field(7), 8))
  }

  /** The preset a store selects: that of its profile, or of its provider when the profile is absent or empty. */
  ghost function Selected(s: Store): Option<Preset> {
    if Profile in s && s[Profile] != "" then FindPreset(s[Profile])
    else if Provider in s then FindPreset(s[Provider])
    else None
  }

  lemma SelectedIs(s: Store)
    ensures FindPreset(LegacyId(s)) == Selected(s)
  {
    assert FindPreset("") == None;
  }

  lemma FitsIs(s: Store, preset: Option<Preset>)
    requires preset.Some? ==> GoodPreset(preset.value)
    ensures Planned(s, preset).ok <==> AllFit(s, preset)
  {
    hide FallbacksFrom, Finish, Backend, GoodPreset;
    forall i: nat | i < 8 ensures Readable(s, i) <==> FitsIn(s, Field(i), [32, 320, 32, 32, 16, 8, 8, 8][i]) {
      assert Size(i) == [32, 320, 32, 32, 16, 8, 8, 8][i];
    }
    if preset.Some? {
      assert AllReadable(s) <==> forall i: nat | i < 8 :: FitsIn(s, Field(i), [32, 320, 32, 32, 16, 8, 8, 8][i]);
    }
  }

  /**
   When everything fits, the run ends with the legacy keys gone; each of the eight fields that was absent or
   empty has its fallback if a preset is selected; a backend "anthropic" has become "anthropic_compatible";
   and every other key is as it was.
   */
  lemma UpgradeMeans(s: Store, key: Key)
    requires AllFit(s, Selected(s))
    ensures var after := Upgrade(s);
      var preset := Selected(s);
      && Profile !in after && Provider !in after
      && (key.Other? ==> (key in after <==> key in s) && (key in s ==> after[key] == s[key]))
      && (key.Field? ==>
            if key !in s || s[key] == "" then
              if preset.Some? && key.i < 8 then key in after && after[key] == preset.value.fallbacks[key.i]
              else (key in after <==> key in s) && (key in s ==> after[key] == s[key])
            else
              key in after
              && after[key] == if key.i == 0 && s[key] == "anthropic" then "anthropic_compatible" else s[key])
  {
    SelectedIs(s);
    FitsIs(s, Selected(s));
    hide Upgrade, PlanOf, Planned, FindPreset, GoodPreset;
    PlanIs(s);
    UpgradeResult(s, key);
    UpgradeResult(s, Profile);
    UpgradeResult(s, Provider);
  }

  lemma PlanIs(s: Store)
    ensures PlanOf(s) == Planned(s, FindPreset(LegacyId(s)))
  {
  }

  /** When something does not fit, nothing is written at all. */
  lemma UpgradeRefused(s: Store)
    requires !AllFit(s, Selected(s))
    ensures Upgrade(s) == s && PlanOf(s) == Plan(false, [])
  {
    SelectedIs(s);
    FitsIs(s, Selected(s));
    hide FallbacksFrom, Finish, Backend, FindPreset;
  }
}
