/**
 * The server's rule table `_local_tips`: each rule that fires for the user's profile
 * contributes one fixed tip, in rule order; without any, five default tips; five at most.
 */
module Tips {
  import opened Common
  import opened Text

  /** The profile dictionary; a missing list is empty, a missing or null text is `None`. */
  datatype Profile = Profile(goals: seq<string>, schedule: Option<string>, equipment: seq<string>,
                             experienceLevel: Option<string>)

  const RuleCount := 7

  /**
   * The tip of each rule, in the order the rules are tried. Each tip is written as two
   * literals because the verifier does not look inside a long string literal, and
   * `RuleTipsDistinct` needs the characters the first part spells out.
   */
  const RuleTips: seq<string> := [
    "Prioritize compound lifts and add " + "small weekly load or rep increases.",
    "Keep rests short and add brisk walks on " + "non-training days to raise weekly activity.",
    "Include 1–2 zone-2 cardio sessions " + "weekly alongside resistance training.",
    "Use cable moves to keep tension constant " + "for accessories like rows and face pulls.",
    "Use slow eccentrics and pause reps to " + "make bodyweight sessions more effective.",
    "Run a simple upper/lower split " + "across two alternating days each week.",
    "Repeat the same key lifts to build skill; " + "keep RPE ~7–8 and track every session."
  ]

  /** The tips given when no rule fires. */
  const DefaultTips: seq<string> := [
    "Aim for 8–12 hard sets per muscle " + "per week and log all sessions.",
    "Warm up with lighter sets, then keep " + "working sets within 2–3 reps of failure.",
    "Progress either weight or reps " + "each week on your main lifts.",
    "Sleep 7–9 hours and keep " + "protein ~1.6–2.2 g/kg bodyweight.",
    "Deload 1 week every 6–8 weeks " + "or when fatigue accumulates."
  ]

  const MaxTips := 5

  /** `(profile.get('schedule') or '').lower()`. */
  function ScheduleKey(p: Profile): string { Lower(p.schedule.GetOr("")) }

  /** `(profile.get('experience_level') or '').lower()`. */
  function ExperienceKey(p: Profile): string { Lower(p.experienceLevel.GetOr("")) }

  /** `'bodyweight_only' in equipment and not equipment - {'bodyweight_only'}` on the set of equipment. */
  predicate BodyweightOnly(equipment: seq<string>) {
    "bodyweight_only" in equipment && (set e | e in equipment) - {"bodyweight_only"} == {}
  }

  /** Whether rule `i` fires for `p`. */
  predicate Fires(p: Profile, i: nat)
    requires i < RuleCount
  {
    if i == 0 then "muscle_gain" in p.goals || "strength" in p.goals
    else if i == 1 then "weight_loss" in p.goals
    else if i == 2 then "endurance" in p.goals
    else if i == 3 then "cable_machine" in p.equipment
    else if i == 4 then BodyweightOnly(p.equipment)
    else if i == 5 then Contains(ScheduleKey(p), "3-4") || Contains(ScheduleKey(p), "3-4 days")
    else ExperienceKey(p) == "beginner" || ExperienceKey(p) == "0-1 years"
  }

  /** The rules below `n` that fire, in increasing order. */
  function Fired(p: Profile, n: nat): (r: seq<nat>)
    requires n <= RuleCount
    ensures |r| <= n
    ensures forall k :: 0 <= k < |r| ==> r[k] < n && Fires(p, r[k])
    ensures forall k1, k2 :: 0 <= k1 < k2 < |r| ==> r[k1] < r[k2]
  {
    if n == 0 then [] else Fired(p, n - 1) + (if Fires(p, n - 1) then [n - 1] else [])
  }

  /** Every rule below `n` that fires is listed. */
  lemma {:induction false} FiredComplete(p: Profile, n: nat, j: nat)
    requires j < n <= RuleCount && Fires(p, j)
    ensures j in Fired(p, n)
  {
    if j < n - 1 {
      FiredComplete(p, n - 1, j);
    }
  }

  function TipsOf(rules: seq<nat>): (r: seq<string>)
    requires forall k :: 0 <= k < |rules| ==> rules[k] < RuleCount
    ensures |r| == |rules| && forall k :: 0 <= k < |rules| ==> r[k] == RuleTips[rules[k]]
  {
    seq(|rules|, k requires 0 <= k < |rules| => RuleTips[rules[k]])
  }

  /** What `_local_tips` returns: the tips of the rules that fire, or the defaults, cut to five. */
  function LocalTips(p: Profile): (r: seq<string>)
    ensures 1 <= |r| <= MaxTips
  {
    var applied := Applied(p, RuleCount);
    var tips := if applied == [] then DefaultTips else applied;
    tips[..Min(MaxTips, |tips|)]
  }

  /** `_local_tips`: appends the tip of each rule that fires, falls back to the defaults, keeps five. */
  method ComputeLocalTips(p: Profile) returns (tips: seq<string>)
    ensures tips == LocalTips(p)
  {
    tips := [];
    assert tips == Applied(p, 0);
    var goals := p.goals;
    var equipment := p.equipment;
    var schedule := ScheduleKey(p);
    var experience := ExperienceKey(p);

    if "muscle_gain" in goals || "strength" in goals {
      tips := tips + [RuleTips[0]];
    }
    assert tips == Applied(p, 1);
    if "weight_loss" in goals {
      tips := tips + [RuleTips[1]];
    }
    assert tips == Applied(p, 2);
    if "endurance" in goals {
      tips := tips + [RuleTips[2]];
    }
    assert tips == Applied(p, 3);
    if "cable_machine" in equipment {
      tips := tips + [RuleTips[3]];
    }
    assert tips == Applied(p, 4);
    if BodyweightOnly(equipment) {
      tips := tips + [RuleTips[4]];
    }
    assert tips == Applied(p, 5);
    if Contains(schedule, "3-4") || Contains(schedule, "3-4 days") {
      tips := tips + [RuleTips[5]];
    }
    assert tips == Applied(p, 6);
    if experience == "beginner" || experience == "0-1 years" {
      tips := tips + [RuleTips[6]];
    }
    assert tips == Applied(p, 7);
    if tips == [] {
      tips := DefaultTips;
    }
    tips := tips[..Min(MaxTips, |tips|)];
  }

  /** The tips collected after trying the first `n` rules, one rule at a time. */
  function Applied(p: Profile, n: nat): seq<string>
    requires n <= RuleCount
  {
    if n == 0 then [] else Applied(p, n - 1) + (if Fires(p, n - 1) then [RuleTips[n - 1]] else [])
  }

  /** Collecting rule by rule gives the tips of the rules that fire, in rule order. */
  lemma {:induction false} AppliedIsFired(p: Profile, n: nat)
    requires n <= RuleCount
    ensures Applied(p, n) == TipsOf(Fired(p, n))
  {
    if n > 0 {
      AppliedIsFired(p, n - 1);
    }
  }

  // ---------------------------------------------------------------------------------
  // Properties of the rule table

  lemma RuleTipsDistinct()
    ensures forall a, b :: 0 <= a < b < RuleCount ==> RuleTips[a] != RuleTips[b]
    ensures forall a, k :: 0 <= a < RuleCount && 0 <= k < |DefaultTips| ==> RuleTips[a] != DefaultTips[k]
  {
    assert RuleTips[0][0] == 'P' && RuleTips[5][0] == 'R';
  }

  /** The rules that fire below `m` are the first rules that fire below any larger `n`. */
  lemma {:induction false} FiredPrefix(p: Profile, m: nat, n: nat)
    requires m <= n <= RuleCount
    ensures |Fired(p, m)| <= |Fired(p, n)| && Fired(p, n)[..|Fired(p, m)|] == Fired(p, m)
    ensures forall k :: |Fired(p, m)| <= k < |Fired(p, n)| ==> Fired(p, n)[k] >= m
    decreases n - m
  {
    if m < n {
      FiredPrefix(p, m, n - 1);
      var a, b := Fired(p, m), Fired(p, n - 1);
      var c: seq<nat> := if Fires(p, n - 1) then [n - 1] else [];
      assert Fired(p, n) == b + c;
      AppendKeepsPrefix(a, b, c, m);
    }
  }

  /** Appending entries at least `m` to `b` keeps its prefix `a` and the bound on what follows `a`. */
  lemma AppendKeepsPrefix(a: seq<nat>, b: seq<nat>, c: seq<nat>, m: nat)
    requires |a| <= |b| && b[..|a|] == a
    requires forall k :: |a| <= k < |b| ==> b[k] >= m
    requires forall k :: 0 <= k < |c| ==> c[k] >= m
    ensures |a| <= |b + c| && (b + c)[..|a|] == a
    ensures forall k :: |a| <= k < |b + c| ==> (b + c)[k] >= m
  {
    assert (b + c)[..|a|] == b[..|a|];
  }

  /** Rule `j`, when it fires, is listed right after the rules below it that fire. */
  lemma FiredPosition(p: Profile, j: nat)
    requires j < RuleCount && Fires(p, j)
    ensures |Fired(p, j)| < |Fired(p, RuleCount)| && Fired(p, RuleCount)[|Fired(p, j)|] == j
  {
    FiredPrefix(p, j + 1, RuleCount);
    assert Fired(p, j + 1) == Fired(p, j) + [j];
    assert Fired(p, RuleCount)[..|Fired(p, j + 1)|][|Fired(p, j)|] == j;
  }

  /** The only place rule `j` can be listed is right after the rules below it that fire. */
  lemma FiredIndex(p: Profile, j: nat, k: nat)
    requires j < RuleCount && k < |Fired(p, RuleCount)| && Fired(p, RuleCount)[k] == j
    ensures k == |Fired(p, j)|
  {
    FiredPosition(p, j);
  }

  /** The tips returned, when a rule fires, are the tips of the first rules that fire. */
  lemma LocalTipAt(p: Profile, k: nat)
    requires Fired(p, RuleCount) != [] && k < |LocalTips(p)|
    ensures k < |Fired(p, RuleCount)| && LocalTips(p)[k] == RuleTips[Fired(p, RuleCount)[k]]
  {
    AppliedIsFired(p, RuleCount);
  }

  /** A rule that fires with fewer than five rules before it has its tip returned. */
  lemma RuleTipReturned(p: Profile, j: nat)
    requires j < RuleCount && Fires(p, j) && |Fired(p, j)| < MaxTips
    ensures RuleTips[j] in LocalTips(p)
  {
    FiredPosition(p, j);
    var k := |Fired(p, j)|;
    AppliedIsFired(p, RuleCount);
    LocalTipAt(p, k);
  }

  /** A rule tip that is returned belongs to a rule that fires with fewer than five before it. */
  lemma ReturnedRuleTip(p: Profile, j: nat, k: nat)
    requires j < RuleCount && k < |LocalTips(p)| && LocalTips(p)[k] == RuleTips[j]
    ensures Fires(p, j) && k == |Fired(p, j)| < MaxTips
  {
    RuleTipsDistinct();
    AppliedIsFired(p, RuleCount);
    if Fired(p, RuleCount) != [] {
      LocalTipAt(p, k);
      FiredIndex(p, j, k);
    }
  }

  /**
   * Truncation: the tip of rule `j` is returned exactly when rule `j` fires and fewer than
   * five rules before it fire.
   */
  lemma RuleTipKept(p: Profile, j: nat)
    requires j < RuleCount
    ensures RuleTips[j] in LocalTips(p) <==> Fires(p, j) && |Fired(p, j)| < MaxTips
  {
    var tips := LocalTips(p);
    if Fires(p, j) && |Fired(p, j)| < MaxTips {
      RuleTipReturned(p, j);
    }
    if RuleTips[j] in tips {
      var k :| 0 <= k < |tips| && tips[k] == RuleTips[j];
      ReturnedRuleTip(p, j, k);
    }
  }

  /** The first five rules are never cut: each one's tip is returned exactly when it fires. */
  lemma EarlyRulesKept(p: Profile, j: nat)
    requires j < MaxTips
    ensures RuleTips[j] in LocalTips(p) <==> Fires(p, j)
  {
    RuleTipKept(p, j);
  }

  /** The compound-lift tip, when its rule fires, always comes first. */
  lemma CompoundTipFirst(p: Profile)
    requires Fires(p, 0)
    ensures LocalTips(p)[0] == RuleTips[0]
  {
    AppliedIsFired(p, RuleCount);
    FiredComplete(p, RuleCount, 0);
    var f := Fired(p, RuleCount);
    assert f[0] == 0;
  }

  /** Collecting rule by rule gives nothing exactly when no rule fires. */
  lemma {:induction false} AppliedEmpty(p: Profile, n: nat)
    requires n <= RuleCount
    ensures Applied(p, n) == [] <==> forall i :: 0 <= i < n ==> !Fires(p, i)
  {
    if n > 0 {
      AppliedEmpty(p, n - 1);
    }
  }

  /** The defaults are returned, all five in order, exactly when no rule fires. */
  lemma DefaultsWhenNoRuleFires(p: Profile)
    ensures LocalTips(p) == DefaultTips <==> forall i :: 0 <= i < RuleCount ==> !Fires(p, i)
  {
    AppliedEmpty(p, RuleCount);
    if Applied(p, RuleCount) != [] {
      AppliedIsFired(p, RuleCount);
      RuleTipsDistinct();
      var f := Fired(p, RuleCount);
      assert LocalTips(p)[0] == RuleTips[f[0]];
    } else {
      assert DefaultTips[..5] == DefaultTips;
    }
  }

  /** The returned rule tips are in rule order, each at most once. */
  lemma RuleOrder(p: Profile, k1: nat, k2: nat, a: nat, b: nat)
    requires k1 < k2 < |LocalTips(p)| && a < RuleCount && b < RuleCount
    requires LocalTips(p)[k1] == RuleTips[a] && LocalTips(p)[k2] == RuleTips[b]
    ensures a < b
  {
    AppliedIsFired(p, RuleCount);
    RuleTipsDistinct();
    var f := Fired(p, RuleCount);
    assert f[k1] == a && f[k2] == b;
  }

  /** The bodyweight rule fires exactly when the equipment set is `{'bodyweight_only'}`. */
  lemma BodyweightRule(p: Profile)
    ensures Fires(p, 4) <==> (set e | e in p.equipment) == {"bodyweight_only"}
  {
    var s := set e | e in p.equipment;
    if s == {"bodyweight_only"} {
      assert "bodyweight_only" in s;
    }
  }

  /** The schedule rule is a case-insensitive test for "3-4"; the "3-4 days" test adds nothing. */
  lemma ScheduleRule(p: Profile)
    ensures Fires(p, 5) <==> Contains(p.schedule.GetOr(""), "3-4")
  {
    var s := ScheduleKey(p);
    LowerContains(p.schedule.GetOr(""), "3-4");
    if Contains(s, "3-4 days") {
      var i :| 0 <= i <= |s| - 8 && OccursAt(s, "3-4 days", i);
      assert s[i..i + 3] == s[i..i + 8][..3];
      assert OccursAt(s, "3-4", i);
    }
  }

  /**
   * The experience rule is a case-insensitive comparison with "beginner" and "0-1 years";
   * a missing level never matches.
   */
  lemma ExperienceRule(p: Profile)
    ensures Fires(p, 6) <==>
      (p.experienceLevel.Some?
       && (EqualsIgnoringAsciiCase(p.experienceLevel.value, "beginner")
           || EqualsIgnoringAsciiCase(p.experienceLevel.value, "0-1 years")))
    ensures p.experienceLevel == Some("Beginner") ==> Fires(p, 6)
    ensures p.experienceLevel == Some("0-1 Years") ==> Fires(p, 6)
  {
    var v := p.experienceLevel.GetOr("");
    LowerMatches(v, "beginner");
    LowerMatches(v, "0-1 years");
  }
}
