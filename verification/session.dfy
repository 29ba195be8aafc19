/**
 * The browser client's session: the page-level globals (`currentUser`, `authToken`,
 * `currentWorkout`, `workoutTimer`, `workoutStartTime`), the two `localStorage` keys that
 * hold the session (`authToken`, `user`), the set of intervals the browser is running,
 * and which page and section are visible. Server replies, the clock, the interval
 * handle that `setInterval` hands out and the answer to `confirm()` are inputs.
 */
module Session {
  import opened Common
  import Text
  import Clock

  datatype User = User(id: int, email: string, name: string, onboardingCompleted: bool)

  datatype Template = Template(id: int, name: string)

  /** One logged set; `weight` is `parseFloat`'s value, treated as an opaque number. */
  datatype LoggedSet = LoggedSet(exerciseId: int, setNumber: int, weight: real, reps: int, rpe: Option<int>)

  /** The top-level panel: `showAuth`, `showOnboarding` or `showApp`. */
  datatype Page = AuthPage | OnboardingPage | AppPage

  /** The `.section` shown inside the app panel. */
  datatype Section = Dashboard | WorkoutTemplates | WorkoutHistory | WorkoutLogging

  /** The reply to `POST /login`, `POST /register`: `response.ok`, another status, or a thrown `fetch`. */
  datatype AuthResponse = AuthOk(token: string, user: User) | AuthFailed(error: string) | AuthNetworkError

  /** The reply to `PUT /user/onboarding`. */
  datatype OnboardingResponse = OnboardingOk(user: User) | OnboardingFailed(error: string) | OnboardingNetworkError

  /** The reply to `POST /workouts/log`. */
  datatype SaveResponse = Saved | SaveFailed(error: string) | SaveNetworkError

  datatype LogSetResult = SetLogged | RepsRequired | NoActiveWorkout

  /** The body `finishWorkout` posts. */
  datatype LogRequest = LogRequest(templateId: int, durationMinutes: int, sets: seq<LoggedSet>, notes: string)

  datatype FinishResult = NothingToFinish | Submitted(request: LogRequest, response: SaveResponse)

  /** A stored session is used only when both keys are present and the token is not empty. */
  predicate SessionStored(token: Option<string>, user: Option<User>) {
    token.Some? && token.value != "" && user.Some?
  }

  /** Where an authenticated user lands: onboarding until it is completed, then the app. */
  function RouteFor(u: User): Page {
    if u.onboardingCompleted then AppPage else OnboardingPage
  }

  /** The page the load handler shows for the stored session keys. */
  function LandingPage(token: Option<string>, user: Option<User>): (p: Page)
    ensures p == AuthPage <==> !SessionStored(token, user)
    ensures p == AppPage <==> SessionStored(token, user) && user.value.onboardingCompleted
  {
    if SessionStored(token, user) then RouteFor(user.value) else AuthPage
  }

  /**
   * The set `logSet` appends, built from the weight, reps and RPE fields:
   * `parseFloat(weight) || 0`, `parseInt(reps)`, `parseInt(rpe) || null`.
   * `None` when reps parses to `NaN` or 0.
   */
  function SetEntry(exerciseId: int, setIndex: int, weight: Option<real>, repsText: string, rpeText: string)
    : (r: Option<LoggedSet>)
    ensures r.None? <==> Text.ParseInt(repsText) in {None, Some(0)}
    ensures r.Some? ==>
      && r.value.exerciseId == exerciseId && r.value.setNumber == setIndex + 1
      && r.value.reps != 0 && Text.ParseInt(repsText) == Some(r.value.reps)
      && r.value.weight == weight.GetOr(0.0)
      && (r.value.rpe.None? <==> Text.ParseInt(rpeText) in {None, Some(0)})
      && (r.value.rpe.Some? ==> Text.ParseInt(rpeText) == r.value.rpe)
  {
    var reps := Text.ParseInt(repsText);
    var rpe := Text.ParseInt(rpeText);
    if reps.None? || reps.value == 0 then None
    else Some(LoggedSet(exerciseId, setIndex + 1, weight.GetOr(0.0), reps.value,
                        if rpe.None? || rpe.value == 0 then None else rpe))
  }

  /** Every non-zero integer typed as reps is accepted, negative ones included; blank and 0 are not. */
  lemma RepsAcceptance(exerciseId: int, setIndex: int, weight: Option<real>, n: int, rpeText: string)
    ensures var e := SetEntry(exerciseId, setIndex, weight, Text.IntToString(n), rpeText);
      n != 0 ==> e.Some? && e.value.reps == n
    ensures SetEntry(exerciseId, setIndex, weight, Text.IntToString(0), rpeText).None?
    ensures SetEntry(exerciseId, setIndex, weight, "", rpeText).None?
  {
    Text.ParseIntToString(n);
    Text.ParseIntToString(0);
  }

  /** The workout in progress; `sets` is the array `logSet` pushes onto. */
  class ActiveWorkout {
    const template: Template
    const startTime: int
    var sets: seq<LoggedSet>

    constructor (template: Template, startTime: int)
      ensures this.template == template && this.startTime == startTime && sets == []
    {
      this.template := template;
      this.startTime := startTime;
      sets := [];
    }
  }

  class Client {
    var currentUser: Option<User>
    var authToken: Option<string>
    var currentWorkout: ActiveWorkout?
    var workoutTimer: Option<nat>
    var workoutStartTime: Option<int>
    /** `localStorage.getItem('authToken')` and `localStorage.getItem('user')`. */
    var storedToken: Option<string>
    var storedUser: Option<User>
    /** The handles of the intervals the browser is running. */
    var intervals: set<nat>
    var page: Page
    var section: Section

    /**
     * A workout in progress has its start time recorded and a running timer; the timer
     * handle, when set, names a live interval.
     */
    ghost predicate Valid()
      reads this
    {
      && (currentWorkout != null ==> workoutStartTime == Some(currentWorkout.startTime) && workoutTimer.Some?)
      && (workoutTimer.Some? ==> workoutTimer.value in intervals)
    }

    /** A fresh page: the globals are null, then the load handler routes on the stored session. */
    constructor Load(storedToken: Option<string>, storedUser: Option<User>)
      ensures Valid()
      ensures this.storedToken == storedToken && this.storedUser == storedUser
      ensures page == LandingPage(storedToken, storedUser)
      ensures SessionStored(storedToken, storedUser) ==> authToken == storedToken && currentUser == storedUser
      ensures !SessionStored(storedToken, storedUser) ==> authToken == None && currentUser == None
      ensures currentWorkout == null && workoutTimer == None && workoutStartTime == None && intervals == {}
    {
      this.storedToken := storedToken;
      this.storedUser := storedUser;
      currentWorkout := null;
      workoutTimer := None;
      workoutStartTime := None;
      intervals := {};
      section := Dashboard;
      if SessionStored(storedToken, storedUser) {
        authToken := storedToken;
        currentUser := storedUser;
        if !storedUser.value.onboardingCompleted {
          page := OnboardingPage;
        } else {
          page := AppPage;
          section := Dashboard;
        }
      } else {
        authToken := None;
        currentUser := None;
        page := AuthPage;
      }
    }

    /**
     * `handleLogin` once the reply is in. Success stores the session and routes like a
     * page load would on the stored keys; any failure changes nothing.
     */
    method HandleLogin(response: AuthResponse)
      requires Valid()
      modifies this
      ensures Valid()
      ensures response.AuthOk? ==>
        && authToken == Some(response.token) && currentUser == Some(response.user)
        && storedToken == Some(response.token) && storedUser == Some(response.user)
        && page == RouteFor(response.user)
        && (page == AppPage ==> section == Dashboard)
        && (page == OnboardingPage ==> section == old(section))
      ensures response.AuthOk? && response.token != "" ==> LandingPage(storedToken, storedUser) == page
      ensures !response.AuthOk? ==> unchanged(this)
      ensures currentWorkout == old(currentWorkout) && workoutTimer == old(workoutTimer)
      ensures workoutStartTime == old(workoutStartTime) && intervals == old(intervals)
    {
      if response.AuthOk? {
        authToken := Some(response.token);
        currentUser := Some(response.user);
        storedToken := authToken;
        storedUser := currentUser;
        if !response.user.onboardingCompleted {
          page := OnboardingPage;
        } else {
          page := AppPage;
          section := Dashboard;
        }
      }
    }

    /** `handleRegister`: success stores the session and always goes to onboarding. */
    method HandleRegister(response: AuthResponse)
      requires Valid()
      modifies this
      ensures Valid()
      ensures response.AuthOk? ==>
        && authToken == Some(response.token) && currentUser == Some(response.user)
        && storedToken == Some(response.token) && storedUser == Some(response.user)
        && page == OnboardingPage && section == old(section)
      ensures !response.AuthOk? ==> unchanged(this)
      ensures currentWorkout == old(currentWorkout) && workoutTimer == old(workoutTimer)
      ensures workoutStartTime == old(workoutStartTime) && intervals == old(intervals)
    {
      if response.AuthOk? {
        authToken := Some(response.token);
        currentUser := Some(response.user);
        storedToken := authToken;
        storedUser := currentUser;
        page := OnboardingPage;
      }
    }

    /** `handleOnboarding`: the server's updated user replaces the current and stored one. */
    method HandleOnboarding(response: OnboardingResponse)
      requires Valid()
      modifies this
      ensures Valid()
      ensures response.OnboardingOk? ==>
        && currentUser == Some(response.user) && storedUser == Some(response.user)
        && page == AppPage && section == Dashboard
        && authToken == old(authToken) && storedToken == old(storedToken)
      ensures !response.OnboardingOk? ==> unchanged(this)
      ensures currentWorkout == old(currentWorkout) && workoutTimer == old(workoutTimer)
      ensures workoutStartTime == old(workoutStartTime) && intervals == old(intervals)
    {
      if response.OnboardingOk? {
        currentUser := Some(response.user);
        storedUser := currentUser;
        page := AppPage;
        section := Dashboard;
      }
    }

    /**
     * `logout`: both session keys and both globals are cleared and the auth page shown.
     * A workout in progress and its timer are left as they are.
     */
    method Logout()
      requires Valid()
      modifies this
      ensures Valid()
      ensures storedToken == None && storedUser == None && authToken == None && currentUser == None
      ensures page == AuthPage && LandingPage(storedToken, storedUser) == AuthPage
      ensures section == old(section)
      ensures currentWorkout == old(currentWorkout) && workoutTimer == old(workoutTimer)
      ensures workoutStartTime == old(workoutStartTime) && intervals == old(intervals)
    {
      storedToken := None;
      storedUser := None;
      authToken := None;
      currentUser := None;
      page := AuthPage;
    }

    /**
     * `startWorkout` and `startWorkoutTimer`: a new workout on `template` with no sets,
     * started at `now`, and a new interval `handle`. A timer already running is not
     * cleared: its interval stays live.
     */
    method StartWorkout(template: Template, now: int, handle: nat)
      requires Valid()
      requires handle > 0 && handle !in intervals
      modifies this
      ensures Valid()
      ensures currentWorkout != null && fresh(currentWorkout)
      ensures currentWorkout.template == template && currentWorkout.startTime == now && currentWorkout.sets == []
      ensures workoutStartTime == Some(now) && workoutTimer == Some(handle)
      ensures intervals == old(intervals) + {handle}
      ensures section == WorkoutLogging && page == old(page)
      ensures currentUser == old(currentUser) && authToken == old(authToken)
      ensures storedToken == old(storedToken) && storedUser == old(storedUser)
    {
      currentWorkout := new ActiveWorkout(template, now);
      workoutStartTime := Some(now);
      workoutTimer := Some(handle);
      intervals := intervals + {handle};
      section := WorkoutLogging;
    }

    /**
     * `logSet`: reps that parse to `NaN` or 0 are rejected and nothing changes. Otherwise
     * exactly one entry is pushed onto the sets of the workout in progress; logging the
     * same set twice is not prevented. Without a workout the push throws and nothing
     * changes.
     */
    method LogSet(setIndex: int, exerciseId: int, weight: Option<real>, repsText: string, rpeText: string)
      returns (r: LogSetResult)
      requires Valid()
      modifies currentWorkout
      ensures Valid()
      ensures var e := SetEntry(exerciseId, setIndex, weight, repsText, rpeText);
        r == if e.None? then RepsRequired else if currentWorkout == null then NoActiveWorkout else SetLogged
      ensures r == SetLogged ==>
        currentWorkout.sets == old(currentWorkout.sets) + [SetEntry(exerciseId, setIndex, weight, repsText, rpeText).value]
      ensures r != SetLogged && currentWorkout != null ==> currentWorkout.sets == old(currentWorkout.sets)
    {
      var entry := SetEntry(exerciseId, setIndex, weight, repsText, rpeText);
      if entry.None? {
        return RepsRequired;
      }
      if currentWorkout == null {
        return NoActiveWorkout;
      }
      currentWorkout.sets := currentWorkout.sets + [entry.value];
      r := SetLogged;
    }

    /**
     * `cancelWorkout`: without confirmation nothing changes; with it the workout is
     * dropped, its interval cleared and the dashboard shown.
     */
    method CancelWorkout(confirmed: bool)
      requires Valid()
      modifies this
      ensures Valid()
      ensures !confirmed ==> unchanged(this)
      ensures confirmed ==>
        && currentWorkout == null && workoutTimer == None && section == Dashboard
        && intervals == old(intervals) - (if old(workoutTimer).Some? then {old(workoutTimer).value} else {})
        && page == old(page) && workoutStartTime == old(workoutStartTime)
        && currentUser == old(currentUser) && authToken == old(authToken)
        && storedToken == old(storedToken) && storedUser == old(storedUser)
    {
      if confirmed {
        currentWorkout := null;
        if workoutTimer.Some? {
          intervals := intervals - {workoutTimer.value};
          workoutTimer := None;
        }
        section := Dashboard;
      }
    }

    /**
     * `finishWorkout`: with no workout or no logged set nothing is sent and nothing
     * changes. Otherwise the workout's template id, its whole minutes since the start and
     * its sets are posted; only a successful reply ends the workout and clears its
     * interval, a failed or lost request leaves it in progress.
     */
    method FinishWorkout(now: int, response: SaveResponse) returns (r: FinishResult)
      requires Valid()
      modifies this
      ensures Valid()
      ensures r.Submitted? <==> old(currentWorkout) != null && old(currentWorkout.sets) != []
      ensures r.Submitted? ==>
        && r.response == response
        && r.request == LogRequest(old(currentWorkout).template.id,
                                   Clock.DurationMinutes(now - old(currentWorkout).startTime),
                                   old(currentWorkout.sets), "")
      ensures r.Submitted? && response == Saved ==>
        && currentWorkout == null && workoutTimer == None && section == Dashboard
        && intervals == old(intervals) - {old(workoutTimer).value}
        && page == old(page) && workoutStartTime == old(workoutStartTime)
        && currentUser == old(currentUser) && authToken == old(authToken)
        && storedToken == old(storedToken) && storedUser == old(storedUser)
      ensures !(r.Submitted? && response == Saved) ==> unchanged(this)
    {
      if currentWorkout == null || currentWorkout.sets == [] {
        return NothingToFinish;
      }
      var duration := Clock.DurationMinutes(now - workoutStartTime.value);
      var request := LogRequest(currentWorkout.template.id, duration, currentWorkout.sets, "");
      r := Submitted(request, response);
      if response == Saved {
        currentWorkout := null;
        if workoutTimer.Some? {
          intervals := intervals - {workoutTimer.value};
          workoutTimer := None;
        }
        section := Dashboard;
      }
    }
  }

  /** Logging the same set twice leaves two equal entries in the buffer. */
  method DuplicateSetScenario(template: Template, now: int, reps: int) returns (sets: seq<LoggedSet>)
    requires reps != 0
    ensures |sets| == 2 && sets[0] == sets[1]
    ensures sets[0].exerciseId == 7 && sets[0].setNumber == 1 && sets[0].reps == reps
  {
    var client := new Client.Load(None, None);
    client.StartWorkout(template, now, 1);
    RepsAcceptance(7, 0, None, reps, "");
    var first := client.LogSet(0, 7, None, Text.IntToString(reps), "");
    var second := client.LogSet(0, 7, None, Text.IntToString(reps), "");
    assert first == SetLogged && second == SetLogged;
    var e := client.currentWorkout.sets[0];
    assert client.currentWorkout.sets == [e, e];
    sets := client.currentWorkout.sets;
  }
}
