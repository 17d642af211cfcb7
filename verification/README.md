# A verified model of the HADCD node agent

The HADCD agent runs on a node that heats a building with its GPU. It stores assets for a
distributed pool, hosts rental sessions in Docker, lists the machine on Vast.AI, follows a
thermostat, mines on its own when the dispatcher is gone, and keeps its settings in
`agent.env`. This project models the stateful cores of that agent and proves what they keep
over whole runs: under every interleaving, every failure and every restart where the source
meets those, and for every input where it computes something.

Check it with `dafny verify dfyconfig.toml` (Dafny 4.11).

## How it is modelled

* What the outside world answers (HTTP, Docker, the Vast.AI CLI, the disk, the clocks) is
  given with the event or passed as a parameter, so a statement over all event sequences is
  a statement over all interleavings and all failures.
* Asynchronous code that shares state across awaits (`Pool`, `Rental`, `Setback`) is a step
  function: one event is one piece of the source between two effects. `Run` folds it over a
  sequence of events. Code that runs in one piece is a method with the source's own loop or
  field updates, proved equal to a specification function; the laws are lemmas about that
  function, and say what it decides in terms of the events and inputs themselves.
* A property that the code does not have in general is stated with the exact condition under
  which it does, as an if-and-only-if, and with an input that shows the failure.

| modules | component |
|---|---|
| `Text`, `EnvFile`, `EnvLaws`, `EnvValidator`, `MachineId` | reader, three writers and validator of `agent.env` |
| `Pool`, `PoolSafety`, `PoolRelay` | content-addressed pool: peer fetch, relay, garbage collector, crash |
| `Rental`, `RentalSafety`, `RentalDocker`, `RentalRuns` | rental sessions and their containers |
| `Vast`, `VastLaws` | listing state machine, session account, agreement with the marketplace, earnings estimate |
| `Weather`, `WeatherLaws`, `WeatherSchedule` | forecast windows, the local schedule and what the listing makes of it |
| `VastLoop` | the poller: backend schedule, or a local one that is kept for a while |
| `Setback`, `StateFile`, `Setpoint` | vacancy setback, the state file, setpoint conversion |
| `Fallback`, `HeaterLoop`, `GpuPause`, `Toggle` | offline fallback, space heater, pausing the miner |
| `Power` | sample buffer and time-weighted average of the power meter |
| `Mounts`, `Volumes`, `Blobs` | path containment, mount policy, staging of input files |
| `Arithmetic` | bounds of quotients, shared by the forecast and the power meter |

## What the proofs found

* The provisioner's overlay law holds exactly for clean keys and values. The validator lets
  through three line separators (U+0085, U+2028, U+2029) that the reader splits at, so an
  accepted value need not read back (`EnvValidator`).
* `_persist_machine_id` loses to a later indented duplicate of the line it rewrites
  (`MachineId.PersistLaw`, `EnvValidator.IndentedDuplicateWins`).
* A stored file can end in an error report when its ack is lost (`PoolSafety.ErrorForStored`);
  an unfinished job's file stands in the pool exactly where that happened
  (`PoolSafety.StoredWhileWorking`).
* Docker's name filter finds another session's container exactly if the short id asked for is
  a prefix of the other's, a dot in it standing for any character. A "stopping" entry without
  a session id therefore tears down every session's container (`RentalDocker.FilterIsExact`,
  `RentalRuns.TeardownHits`).
* An offer left up by an earlier agent life is never taken down while nobody wants the
  machine listed (`VastLaws.RestMakesNoCalls`); provider and marketplace agree exactly if the
  last call that reached the latter was heard to have worked (`AgreesExactly`). The machine
  ends off the market without its drain exactly if listing it again failed while it drained
  and no listing has worked since (`UnlistedIsNotDrained`; `UnlistedWithRenters` is a run).
* `build_vast_schedule` documents that its next window serves to unlist in advance. The
  provider reads it as a reason to list, and takes its local time for UTC. The schedule alone
  decides exactly if local time is ahead of UTC by the lead time and the schedule's age
  together. At the default settings that holds an hour east of UTC only until the schedule is
  50 minutes old; behind UTC the machine is listed hours before a no-list window
  (`WeatherSchedule.PreListing`, `EastNeverPreLists`, `LessEastPreLists`). At UTC it is listed
  against the schedule where a cold spell turns straight into a hot one, and on a schedule
  older than an hour less the lead time also where no window covers the moment any more
  (`OnlyHandoversList`, `StaleSchedulePreLists`).
* While the backend does not answer, the loop uses one local schedule until the polls that
  went unanswered make up the refresh interval. A no-list window that begins meanwhile goes
  unheeded until then: for less than the refresh interval if the backend stays away and polls
  are no further apart than the loop counts, without any bound if it comes back in between
  (`VastLoop.RebuildsExactly`, `UnheededUntilRebuild`, `CacheOutlives`).
* After a restart in mid-vacancy a clear restores nothing, because the flag starts out
  cleared; the next full vacancy heals it (`Setback.ClearRestoresExactly`, `NextVacancyHeals`).
* `AgentState.load` documents that a bad file never stops the agent. It does: a path that may
  not be looked at, bytes that do not decode, JSON nested too deeply or with an integer of
  thousands of digits, JSON that is not an object, and an integer setpoint beyond the range of
  a float all raise, and nothing catches it (`StateFile.LoadRaisesExactly`, `StartsExactly`).
* The space heater is left on exactly if the loop is cancelled in a turn-on that got through,
  or a turn-off did not reach it and no later one did. One swallowed failure is enough: the
  loop then believes the heater off and sends nothing more (`HeaterLoop.LeftOnExactly`,
  `BelievedOffStaysOn`).
* A pause still open when the mining chunk ends is reported as mining time, and so is whatever
  the wall clock was moved meanwhile (`GpuPause.ActiveTimeExactly`).
* Two input blobs whose names reduce to the same one share a file: one task input is replaced
  by another (`Blobs.InputsKeepContent`).

## Model

| member | source | states |
|---|---|---|
| Text.SplitUnlines | agent/provisioner.py:177-216 | lines without line breaks, joined and split again, are the same lines |
| Text.SplitAtBreak | agent/provisioner.py:177-216 | a line ends at the first break; a carriage return takes the line feed right behind it along, any other break stands alone |
| Text.BreaksAndSpaces | agent/provisioner.py:177-183 | the ten characters lines break at and the twenty-five that are stripped, one by one |
| Text.StripExactly | agent/provisioner.py:178-183 | stripping cuts off all the whitespace at both ends and nothing else |
| EnvFile.ReadEnvFile | agent/provisioner.py:173-184 | the line-by-line loop computes the mapping that later assignments override; a missing file reads as empty |
| EnvFile.RewritePass | agent/provisioner.py:195-207 | the first loop rewrites exactly the lines that assign an updated key and collects the updated keys some line assigns |
| EnvFile.MergeEnv | agent/provisioner.py:187-219 | the whole merge: every assignment of an updated key rewritten in place, the keys assigned nowhere appended in dict order under the header |
| EnvFile.EntryOfAssignment | agent/provisioner.py:178-183 | printer against parser: `key=value` with a clean key parses as that key and the stripped value, whatever the value holds |
| EnvFile.EntryExactly | agent/provisioner.py:178-183 | a line assigns a value to a key if and only if, stripped, it is no comment and splits at its first equals sign into parts that strip to them |
| EnvFile.EntryIsClean | agent/provisioner.py:177-183 | whatever a single line parses to is a clean key and a clean value |
| EnvLaws.OverlayLaw | agent/provisioner.py:173-219 | reading after a merge gives the old mapping overlaid with the updates if and only if every updated key and value is clean |
| EnvLaws.WritersAgree | agent/agent.py:1301-1333 | the config push and the provisioner write files that read the same, for every file and every update, clean or not |
| EnvLaws.Idempotent | agent/provisioner.py:187-219 | merging twice gives the same text as once if and only if every key is clean and every value stays on its line |
| EnvLaws.UnrelatedKept | agent/provisioner.py:194-217 | comments, blank lines and assignments of other keys keep their text and order, with only a blank line and the header added where the merge appends, if and only if no update spills lines of its own (an unread key, a value that breaks) |
| EnvLaws.CleanSpillsNothing | agent/provisioner.py:187-217 | clean updates spill nothing |
| EnvLaws.NothingIsLost | agent/provisioner.py:194-217 | whatever the updates, no line that assigns none of them is lost or changed |
| EnvValidator.AcceptsExactly | agent/provisioner.py:93-107 | a value is refused if and only if an ASCII control character is left in it once stripped |
| EnvValidator.AcceptedIsClean | agent/provisioner.py:93-107 | a value the validator accepts is clean if and only if it holds none of U+0085, U+2028, U+2029 |
| EnvValidator.AcceptedNotClean | agent/provisioner.py:93-107 | an accepted value that does not read back, in any file under any key |
| EnvValidator.IndentedDuplicateWins | agent/vast_provider.py:610-626 | a file in which persisting the machine id does not change what the reader sees as intended |
| MachineId.PersistMachineId | agent/vast_provider.py:599-636 | the loop replaces each line with the raw prefix, appends one if there was none, and skips a missing file |
| MachineId.PersistLaw | agent/vast_provider.py:611-626 | persisting overlays the id on the mapping if and only if the id is clean and the last assignment of the key has the form the writer recognises (or no line has it, or the value was there already) |
| Pool.PoolDirectory.CollectGarbage | agent/agent.py:1599-1626 | one pass takes exactly the files ending in ".tmp" and those of 64 characters outside the manifest, as far as they can be deleted; listed and all other files stay what they were, in whatever order the directory is read; the result counts what went |
| PoolSafety.PoolStaysSound | agent/agent.py:1400-1566 | in every state of every interleaving of transfer, collector and crash, each file with a digest name has content hashing to that name, whatever other files lie in the directory |
| PoolSafety.CollectsExactly | agent/agent.py:1599-1626 | the same for a pass between any two effects of a transfer, which it leaves as it stands |
| PoolSafety.ListedStays | agent/agent.py:1592-1613 | a stored file that every manifest lists stays in the pool, with the content its name stands for, through every interleaving |
| Pool.EndsInExactly | agent/agent.py:1605 | a name ends in a text exactly if it is something followed by that text |
| PoolSafety.OpenTruncates | agent/agent.py:1472 | opening the temporary file truncates the very file that is there, or makes a new one |
| PoolSafety.LostTmpOnlyFails | agent/agent.py:1592-1610 | once the collector took the temporary file of a download, in no run from there does a name ever lead to what that download wrote, and it never gets to an acknowledgement |
| PoolSafety.AckedWasStored | agent/agent.py:1436-1467 | an ack is under way only if a file with the right bytes stood in the pool at a moment since which nothing but that ack was pending |
| PoolSafety.StoredWhileWorking | agent/agent.py:1455-1518 | an unfinished or failing job's file is in the pool if and only if an ack of that job was lost while the file stood there, the job has been at work since, and no collector took the file |
| PoolSafety.ErrorForStored | agent/agent.py:1455-1518 | such a run exists from every sound idle state: an error is about to be reported for a stored file |
| PoolSafety.RunAlike | agent/agent.py:1400-1566 | two pools that differ only in which inodes back their files stay alike under every run |
| PoolRelay.JobBegins | agent/agent.py:1433-1455 | a job whose file is there is only acknowledged; otherwise its peer is asked first if it has one, else the relay; the pool stays as it is |
| PoolRelay.PeerGivesWay | agent/agent.py:1448-1475 | a peer that refuses is followed by the relay at once, one that fails after the removal of the temporary file |
| PoolRelay.JobEndsExactly | agent/agent.py:1433-1528 | a job is done with exactly on a crash, an ack that gets through (or any ack of a file already there), a temporary file that cannot be removed, or its error posted; until then it is the same job |
| PoolRelay.RelayAfterPeer | agent/agent.py:1448-1518 | however a peer fetch failed, the collector running meanwhile and taking its temporary file included, once the relay opened its own the pool and everything after it is as if only the relay and the same collections had run |
| PoolRelay.RelayAfterStored | agent/agent.py:1448-1518 | where the peer's file was stored and only its ack lost: whatever happens to the relay up to the end of the job, its phases are those of a relay without the peer and the pools agree on every other name; they agree fully if and only if the relay has renamed its file or a collection has taken the peer's |
| PoolRelay.RelayStoresTheSame | agent/agent.py:1455-1510 | such a relay, left alone with chunks that match, ends with the very pool a relay without the peer ends with |
| PoolRelay.RelayReceives | agent/agent.py:1476-1491 | what the relay has written and hashed after each chunk is the concatenation of the chunks, and nothing else in the pool changed |
| PoolRelay.RelayStores | agent/agent.py:1493-1510 | an undisturbed relay stores the job's file if and only if its chunks hash to the job's name, and the file then holds exactly those bytes |
| Rental.RentalSessionHandler.HandleSessions | agent/rental_session_handler.py:193-226 | the loop takes the guard of every id to stop and of every active id, and begins, in the order of the entries, one teardown and one reconcile for each that was free and every start of a session not in the active map |
| RentalSafety.DispatchGuarded | agent/rental_session_handler.py:204-222 | one heartbeat, whatever its entries, never takes a guard twice and spawns one task for each guard it takes |
| Rental.DispatchExactly | agent/rental_session_handler.py:204-222 | the entry-by-entry dispatch comes to the same |
| RentalSafety.HeartbeatExactly | agent/rental_session_handler.py:193-226 | so does a heartbeat in the interleaved system: its tasks get fresh ids, and nothing else changes |
| RentalSafety.RestartForgets | agent/rental_session_handler.py:181-189 | a restart empties the map and both guards and ends every task; Docker and the posts stay |
| RentalSafety.ContainersComeAndGo | agent/rental_session_handler.py:453-485 | a container that exits keeps its name and stops running, one that vanishes frees it, no other changes |
| RentalSafety.RemovesExactly | agent/rental_session_handler.py:425-433 | a teardown removes, stops or leaves the one container it means, by the outcome, and only if that is still the one it listed |
| RentalSafety.TeardownGoesOn | agent/rental_session_handler.py:417-441 | a teardown that cannot list the containers removes none and still reports the session stopped; one that can tries them all before it finishes |
| RentalSafety.LookFindsExactName | agent/rental_session_handler.py:453-464 | a reconcile's look finds the container of the session's exact name; if Docker fails the reconcile ends and frees the session for the next heartbeat |
| RentalSafety.ReloadDecides | agent/rental_session_handler.py:453-485 | a reconcile finds its session running if the very container it listed still is, missing if that has stopped or none was listed, and else ends and preserves what is known |
| RentalSafety.RunGuarded | agent/rental_session_handler.py:193-226 | over all interleavings the stopping set is exactly the ids with a teardown not past its finally, the reconciling set exactly those with an unfinished reconcile, one task per id each |
| RentalDocker.NamesCollide | agent/rental_session_handler.py:255 | two sessions share a container name if and only if their first eight characters agree |
| RentalDocker.FilterIsExact | agent/rental_session_handler.py:421-424 | Docker's filter for one session, a regular expression searched for anywhere in the name, finds another's container if and only if the other's short id begins as its own, a dot in its own standing for any character |
| RentalDocker.FoundAnywhere | agent/rental_session_handler.py:421-424 | the filter finds a name, of whatever container, if and only if it matches somewhere in it |
| RentalDocker.FilterCases | agent/rental_session_handler.py:204-205 | for ids of eight characters or more without a dot that is only a shared name; every filter finds the session's own container, and an entry without an id finds every session's |
| RentalDocker.ShortIdFindsOthers | agent/rental_session_handler.py:421-424 | a short id, and a full one with a dot, whose filter finds another session's container |
| RentalDocker.RunMade | agent/rental_session_handler.py:248-408 | over every run each activate post names a container that the posting start's own create made, for that session |
| RentalDocker.OneLiveActivation | agent/rental_session_handler.py:248-408 | of all activations ever posted under one container name at most one still has its container |
| RentalDocker.OneWinner | agent/rental_session_handler.py:209-210 | however many starts for one name overlap, while the name stays taken its container stays the same and no other start gets one made |
| RentalDocker.LosingStart | agent/rental_session_handler.py:248-408 | a start that finds the name taken changes nothing but to end; in every continuation no event of its task does anything, so it neither writes the active map nor posts |
| RentalDocker.LossHadEvidence | agent/rental_session_handler.py:453-485 | each reported loss has a successful look at Docker, by the task that reported it, that showed no running container of that name |
| RentalDocker.DropsAreDeliberate | agent/rental_session_handler.py:417-491 | a session that left the active map in a run was dropped in it by its own teardown, by its own reconcile that found nothing running, or by a restart |
| RentalDocker.EntryFrame | agent/rental_session_handler.py:398-492 | over any run a session's entry, presence and container, changes only where one of its own tasks registers, applies a finding or begins its teardown, or the agent restarts |
| RentalDocker.DockerErrorsPreserve | agent/rental_session_handler.py:443-492 | however long Docker keeps failing and whatever heartbeats, starts and reconciles come meanwhile, a session whose teardown does not begin keeps its entry |
| RentalDocker.ReconcileAgrees | agent/rental_session_handler.py:443-485 | after one undisturbed reconcile the session is active if and only if Docker runs its container, under that container's id, and no other session changed |
| RentalRuns.StartActivates | agent/rental_session_handler.py:248-408 | a start left to itself activates its session if and only if the name was free and Docker started the container; otherwise the map and the posts stay as they were |
| RentalRuns.TeardownReaps | agent/rental_session_handler.py:410-441 | a teardown left to itself removes exactly the containers Docker's filter finds, takes the session out of the map and the guard, and posts one stop |
| RentalRuns.TeardownHits | agent/rental_session_handler.py:410-441 | of all sessions' containers a teardown removes exactly those whose id begins as the short id torn down, dots standing for any character: every one for an entry without an id, only its own name's for full ids without a dot |
| RentalRuns.RestartReaps | agent/rental_session_handler.py:216-222 | after a restart a heartbeat that says to stop a session begins its teardown although the agent does not know it, and left to itself that leaves no container of its name |
| Vast.VastProvider.Update | agent/vast_provider.py:381-503 | one tick takes the machine to the specified next state and raises or not, for every schedule, override, clock and CLI answer, exceptions from the CLI included |
| VastLaws.ListingRecords | agent/vast_provider.py:476-496 | a listing that opens a session records the moment and the price the reply gives |
| VastLaws.RaisesExactly | agent/vast_provider.py:123-137 | a tick raises exactly if its listing or unlisting call did, or the price of a newly opened session or the renters of a draining machine could not be asked |
| VastLaws.SessionAccount | agent/vast_provider.py:413-496 | after any run the k-th session runs from the first listing after the drain before it to the next drain, with that listing's price; each drain logs one; a start is on record if and only if there was a listing since the last drain |
| VastLaws.SessionsFit | agent/vast_provider.py:413-496 | under a monotone clock sessions are ordered and disjoint, and together with the open one never exceed the time passed |
| VastLaws.TotalNeverExceedsElapsed | agent/vast_provider.py:241-261 | the logged durations add up to no more than the length of the run |
| VastLaws.EstimateExactly | agent/vast_provider.py:253-267 | a session is estimated at its price for each hour, four fifths of it net, and at nothing without a price |
| VastLaws.TotalsAdd | agent/vast_provider.py:253-267 | times and estimates of a log are the sums over its sessions |
| VastLaws.EarningsAreBounded | agent/vast_provider.py:241-273 | if no price seen exceeds a bound, the estimated gross and net of a whole run never exceed that price over the time passed |
| VastLaws.StepAgrees | agent/vast_provider.py:140-177 | a call that reaches the marketplace brings agreement with it if and only if its reply says so; any other step leaves agreement or disagreement as it was |
| VastLaws.OfferFollows | agent/vast_provider.py:140-177 | the offer is up after a listing that reached the marketplace, down after such an unlisting, else as it was |
| VastLaws.AgreesExactly | agent/vast_provider.py:413-503 | after any run from any state the provider counts itself listed just while the offer is up, if and only if the last call that reached the marketplace was heard to have worked, or none reached it and they agreed before |
| VastLaws.ListedIsOffered | agent/vast_provider.py:381-503 | with a CLI that is heard right and never raises, the provider is never left in the transient state and is listed if and only if the offer is up |
| VastLaws.LeftInListing | agent/vast_provider.py:123-137 | the transient state outlasts a tick if and only if the listing call of the last tick raised |
| VastLaws.ComesToRest | agent/vast_provider.py:413-503 | a steady wish to unlist with working calls and no renters takes the rank down by one per tick: two ticks from listed, and it stays there |
| VastLaws.OverrideWins | agent/vast_provider.py:397-401 | with a working CLI and no renters, a forced unlist reaches unlisted within the rank and a forced list is listed from the first tick, under every schedule |
| VastLaws.RestMakesNoCalls | agent/vast_provider.py:415-421 | an unlisted machine nobody wants listed makes no call in any run, so a stray offer stays up |
| VastLaws.DrainsExactly | agent/vast_provider.py:208-233 | a tick leaves an unwanted draining machine as it was if and only if the query failed, could not be counted, raised, or lists renters; else it unlists it and logs the session |
| VastLaws.RentersAreWaitedFor | agent/vast_provider.py:429-474 | over any run such a machine stays as it is exactly while no answer is an empty list or JSON of an unforeseen shape, else it is unlisted |
| VastLaws.UnlistedIsNotDrained | agent/vast_provider.py:424-474 | after any run the machine is off the market with the start of its session still on record if and only if listing it again failed while it drained and no listing has worked since |
| VastLaws.UnlistedWithRenters | agent/vast_provider.py:476-496 | such a run, with a faithful CLI and a renter in throughout |
| Weather.ExtractWindows | agent/weather.py:196-322 | the one-pass loop with the open run's start returns the windows of the specification, for cold and for hot |
| WeatherLaws.WindowsAreLongRuns | agent/weather.py:196-322 | the windows are, in order, exactly the maximal runs of hours beyond the threshold that last at least the minimum |
| WeatherLaws.WindowTemperatures | agent/weather.py:247-257 | a window's extreme is the coldest (hottest) hour of its run, and its mean lies between the extreme and the threshold, strictly beyond the latter |
| WeatherLaws.MeanIsAverage | agent/weather.py:247-257 | a window's mean times its number of hours is the total of their temperatures |
| WeatherLaws.GridWindow | agent/weather.py:235-250 | on the hourly grid a window lasts as many hours as its run has |
| WeatherLaws.WindowsApart | agent/weather.py:196-322 | on the hourly grid the windows are sorted and at least an hour apart |
| WeatherLaws.ColdAndHotApart | agent/weather.py:341-344 | with ordered thresholds a cold and a hot window share at most an end point |
| WeatherSchedule.CoveredByHour | agent/weather.py:367-368 | a moment is inside a kept window if and only if its hour is in a long run, or it is the start of the hour right after one |
| WeatherSchedule.ListsInModerateHours | agent/weather.py:362-371 | the schedule says to list if and only if the hour is in no long cold and no long hot run (the hour start after a run excepted) |
| WeatherSchedule.ListsOutsideForecast | agent/weather.py:362-393 | outside the forecast the schedule says to list; there is a next window if and only if the forecast is still ahead and keeps one, and it is then the earliest |
| WeatherSchedule.NoHourIsBoth | agent/weather.py:341-344 | with ordered thresholds no hour lies in a long cold and a long hot run |
| WeatherSchedule.NextWindowIsEarliest | agent/weather.py:373-393 | the next window is the earliest future one of either kind, a cold one on ties, with its own end; there is none if and only if none starts in the future |
| WeatherSchedule.PreListing | agent/vast_provider.py:505-516 | on a schedule of any age, with local time ahead of UTC by any amount, the provider wants the machine listed if and only if the schedule says so or its next no-list window starts within the lead time shifted by both |
| WeatherSchedule.EastNeverPreLists | agent/vast_provider.py:510-514 | the schedule alone decides, whatever the forecast, if and only if local time is ahead of UTC by at least the lead time and the age of the schedule together (or the lead time is negative) |
| WeatherSchedule.LessEastPreLists | agent/vast_provider.py:505-516 | less far east, an hourly forecast for which the provider lists against the schedule, at every age, offset and lead time |
| WeatherSchedule.PreListingInUtc | agent/vast_provider.py:390-404 | with local time equal to UTC and a schedule of any age it lists against the schedule if and only if the schedule was built inside a no-list window and the next one after that moment starts within the lead time |
| WeatherSchedule.OnlyHandoversList | agent/weather.py:352-387 | on the grid, with a lead time under an hour, that is a no-list window ending just as one of the other kind starts, while age and lead time make less than an hour; at a greater age it is that, or no window covers the moment any more |
| WeatherSchedule.StaleSchedulePreLists | agent/agent.py:824-840 | a schedule of 54 minutes against which the provider lists though nothing hands over |
| VastLoop.Loop | agent/agent.py:802-841 | the poller up to the first tick that raises: the events its polls make of backend, cache and overrides, run on the provider; it makes every poll unless the provider is disabled or a tick raised, which is then the last |
| VastLoop.CacheAccount | agent/agent.py:824-835 | after any polls the cache holds what the last rebuild gave, and its age is an interval for each poll since that the backend did not answer |
| VastLoop.RebuildsExactly | agent/agent.py:826-834 | an unanswered poll rebuilds if and only if nothing was built before, or the last build gave nothing, or with this poll as many went unanswered since as make up the refresh interval |
| VastLoop.FallbackUses | agent/agent.py:824-835 | an unanswered poll is driven by the last build, its own or one since which fewer polls went unanswered than make up the refresh interval |
| VastLoop.AnsweredDrives | agent/agent.py:824-840 | a poll the backend answers ticks with that answer's word and next window, under the override in force, and leaves the cache alone |
| VastLoop.AgeIsBounded | agent/agent.py:824-841 | while the backend stays away the schedule is younger by the clock than the refresh interval, stretched by how much further apart the polls are than the loop counts |
| VastLoop.CacheOutlives | agent/agent.py:824-835 | with the backend back in between there is no such bound: a run for every age |
| VastLoop.FallbackDecides | agent/agent.py:824-840 | at every unanswered poll the provider wants the machine listed if and only if the schedule said so when built, or the first window after that moment starts in the lead time shifted by age and offset |
| VastLoop.UnheededUntilRebuild | agent/agent.py:824-840 | on a schedule that says to list the machine stays wanted at every unanswered poll until the rebuild, whatever window begins meanwhile, which is less than the refresh interval (stretched as above) if the backend stays away |
| VastLoop.NeverFoundListing | agent/agent.py:837-840 | no tick of a loop in which none raised finds the machine in the transient state |
| Setback.HeatOverride.Apply | agent/agent.py:605-671 | the call without a restart is the run of its effects in order, for every outcome of the read, the writes and the saves |
| Setback.StepSafe | agent/agent.py:623-671 | an effect keeps the occupants' setpoint recoverable if and only if it is orderly: the read and save succeed, a restoring write returns only after it took effect, nobody moves the thermostat while a setpoint is saved |
| Setback.RunSafe | agent/agent.py:623-671 | over any orderly run with restarts between any two effects, what is saved is only ever the occupants' setpoint, and it is in the state file whenever the thermostat shows anything else |
| Setback.VacancyLowers | agent/agent.py:630-647 | a room that becomes vacant has its setpoint in the state file before the thermostat goes to the setback temperature |
| Setback.RepeatDoesNothing | agent/agent.py:623-626 | a heartbeat that says what the agent knows already reads, writes and saves nothing |
| Setback.HeartbeatsWait | agent/agent.py:479-483 | heartbeats are handled one at a time |
| Setback.ClearRestores | agent/agent.py:654-671 | after any orderly run, a clear processed while the override is active restores the pre-vacancy setpoint and leaves nothing saved |
| Setback.ClearRestoresExactly | agent/agent.py:623-626 | a processed clear restores if and only if the agent knows of the vacancy or there is nothing to restore |
| Setback.NextVacancyHeals | agent/agent.py:632-671 | from any safe idle state one more vacancy opened and cleared without a restart restores the setpoint |
| Setback.RestartStrands | agent/agent.py:623-626 | an orderly run, every event of it, in which a restart and an early clear leave the room at setback |
| Setback.FailedReadLosesSetpoint | agent/agent.py:637-643 | with a failed first read a restart saves the setback temperature itself |
| Setback.FailedSaveLosesSetpoint | agent/agent.py:640-645 | the same when the setpoint was read but not saved |
| Setback.FailedRestoreForgets | agent/agent.py:656-668 | a failed restoring write still drops the saved setpoint |
| StateFile.AgentState.Load | agent/state.py:46-77 | load sets the fields to what the file says, or leaves them, or raises (with the two names already set where the setpoint overflows), for every content of the path |
| StateFile.AgentState.Save | agent/state.py:89-118 | save replaces the file with the current identity or leaves it untouched |
| StateFile.AgentState.RecordCachedModel | agent/state.py:79-87 | the model is appended if it is new and not empty, and then saved; otherwise nothing is written |
| StateFile.SaveThenLoad | agent/state.py:46-118 | what was saved is what a restarted agent loads, whatever it held before: optional fields, empty lists and all |
| StateFile.LoadRaisesExactly | agent/state.py:54-77 | load raises if and only if the path may not be looked at, its bytes do not decode, the parser gives up, the JSON is not an object, or an identity comes with an integer setpoint too large for a float; only the last changes anything |
| StateFile.SetpointLoads | agent/state.py:66-69 | an enrolled file loads a number as it is, a boolean as one or zero, and anything else as no setpoint |
| StateFile.FitsExactly | agent/state.py:67-69 | an integer overflows a float from half a step above the largest double on |
| StateFile.OverflowsExactly | agent/state.py:66-69 | the setpoints load raises on are the integers, of either sign, from there on |
| StateFile.PayloadIsSparse | agent/state.py:100-107 | the file names setpoint and models only where there are any |
| StateFile.StartUp | agent/__main__.py:78-90 | the start of the agent from its state file: it dies, refuses, enrolls afresh or resumes |
| StateFile.StartsExactly | agent/__main__.py:78-90 | which file contents resume a node, which make it enroll (or refuse without a token) and which kill the agent |
| StateFile.LastSaveResumes | agent/state.py:46-118 | after any run of saves and failed saves every start resumes as the identity of the last save that succeeded; if none did, the file found decides |
| StateFile.RecordedExactly | agent/state.py:79-87 | over any run of reports the list holds each reported model once and nothing else |
| Fallback.Agent.AfterPost | agent/agent.py:563-596 | the end of a heartbeat takes the fallback to the specified state, for every answer, market state and clock |
| Fallback.VacantAsReported | agent/agent.py:479-483 | the room counts as vacant if and only if that is what the last answer that spoke of it said |
| Fallback.MiningIsProper | agent/agent.py:563-596 | at the end of every beat of every run: no mining while the last the dispatcher said is that the room is vacant, none after an answered beat or one that found Vast.AI renting |
| Fallback.OfflineSince | agent/agent.py:567-590 | the offline mark is unset if and only if no beat was lost since the last answered one, else it is the mark of the first; renting beats do not count |
| Fallback.StartsExactly | agent/agent.py:581-596 | a beat starts the miner if and only if it is lost, nothing mines, the room was not last reported vacant, and the threshold has passed since the first lost beat after the last answered one |
| Fallback.MinesExactly | agent/agent.py:563-596 | the agent mines if and only if that became due at some beat since which no beat was answered, none found Vast.AI renting, and the miner did not end |
| Fallback.NoEarlyStart | agent/agent.py:588-596 | under one clock no start comes within the threshold of any earlier answered beat |
| HeaterLoop.Loop | agent/autonomous_mode.py:166-252 | the calls the loop sends, its finally last, are those of its attempts in order, whatever becomes of each call and wherever the loop is cut |
| HeaterLoop.SendsExactly | agent/autonomous_mode.py:166-252 | everything the loop sends, from what its passes met: on where heat is demanded, both miners skip, a heater is configured and it is not on already; off where it was on and heat is not demanded any more; and the finally's turn-off |
| HeaterLoop.BelievedExactly | agent/autonomous_mode.py:182-233 | the loop believes the heater on if and only if some pass needed it and heat has been demanded at every pass since |
| HeaterLoop.UnconfiguredIsSilent | agent/autonomous_mode.py:142-143 | without a heater configured nothing is ever sent |
| HeaterLoop.CallsDecide | agent/autonomous_mode.py:134-164 | the heater stands as the last call that reached it said |
| HeaterLoop.ReturnedAlternate | agent/autonomous_mode.py:182-233 | the calls that return alternate on, off, and their parity is what the loop believes |
| HeaterLoop.CallsAreBalanced | agent/autonomous_mode.py:246-252 | on every exit the returned calls alternate, and they are balanced if and only if the finally needs no call or gets it back |
| HeaterLoop.HeaterStands | agent/autonomous_mode.py:134-164 | with failures swallowed, the heater is on if and only if a turn-on reached it and no later turn-off did, or it was on before and none reached it |
| HeaterLoop.LeftOnExactly | agent/autonomous_mode.py:134-252 | a heater off at first is left on if and only if the loop was cancelled in a turn-on that got through, or missed a turn-off and no later one reached |
| HeaterLoop.BelievedOffStaysOn | agent/autonomous_mode.py:182-252 | after a missed turn-off the loop, its finally included, sends nothing until heat is demanded anew, and the heater stays on |
| Toggle.EdgesAlternate | hadcd_workloads/gpu_mining_fill.py:298-317 | operating only on a change makes the operations alternate, and their parity tells how the switch stands |
| GpuPause.MiningLoop | hadcd_workloads/gpu_mining_fill.py:290-327 | the loop's operations and paused total are those of the rounds that ran to their end, with the exact reason it stopped: time, the miner's exit, a sleep that raises (also for a negative interval), a suspend or resume that raises |
| GpuPause.StopsExactly | hadcd_workloads/gpu_mining_fill.py:290-327 | the loop runs the rounds up to the first that begins too late, cannot sleep, or fails to suspend or resume on a change of pressure, or that sees the miner's end, and leaves for that reason |
| GpuPause.OpsAlternate | hadcd_workloads/gpu_mining_fill.py:298-317 | suspends and resumes alternate, and the miner is suspended at the end if and only if their number is odd |
| GpuPause.PausedTimeIsSound | hadcd_workloads/gpu_mining_fill.py:298-317 | paused time lies between zero and elapsed, and is the time stood still if and only if no pause is open at exit or it has no length |
| GpuPause.ActiveTimeExactly | hadcd_workloads/gpu_mining_fill.py:335-339 | the reported active time is the time the miner ran plus a pause open at exit plus what the wall clock moved against the monotone one |
| Power.KasaPowerMeter.Poll | agent/kasa_power_meter.py:106-136 | the buffer is always the newest 180 samples of the history and the last reading the newest of them |
| Power.KasaPowerMeter.AverageWattsSince | agent/kasa_power_meter.py:138-166 | the loop computes area over span of the samples in the window, with its fallbacks; there is no average if and only if there was never a reading |
| Power.BufferSuffices | agent/kasa_power_meter.py:83-86 | the buffer holds every sample of the window ever taken if and only if the newest dropped one is older than the window |
| Power.AverageExactly | agent/kasa_power_meter.py:150-166 | average times length of the window is its area; without length it is the newest sample, without a sample the last reading |
| Power.AverageIsBetween | agent/kasa_power_meter.py:138-166 | the average lies between the least and greatest power in the window, whatever the spacing |
| Power.AreaSplits | agent/kasa_power_meter.py:156-164 | areas add up where two stretches meet in a sample |
| Power.ExtraReadingChangesNothing | agent/kasa_power_meter.py:156-166 | the area is that of the piecewise-linear curve: one more reading of that curve changes neither area nor average |
| Setpoint.RoundedIsNearest | agent/heat_source.py:606 | rounding gives a nearest tenth, and there is one for every number |
| Setpoint.ReadBack | agent/heat_source.py:526-601 | a setpoint written and read back differs by at most 0.05 °C, or 1/36 °C on a Fahrenheit thermostat |
| Setpoint.NoDrift | agent/heat_source.py:526-601 | writing back what was read sends the very same number |
| Setpoint.KeepsOrder | agent/heat_source.py:579-601 | a warmer setpoint is never sent as a colder one |
| Mounts.WithinExactly | hadcd_workloads/container.py:67-71 | on resolved paths the textual test holds if and only if the parent's components are a prefix of the path's |
| Mounts.StagedExactly | hadcd_workloads/container.py:91-95 | the staging test holds if and only if the path lies below the temporary directory in a component with the staging prefix |
| Mounts.RenderedAbsolute | hadcd_workloads/container.py:67-71 | a resolved path's text is absolute, and only the root's ends in a separator |
| Volumes.CheckMountAllowed | hadcd_workloads/container.py:74-104 | a source is allowed if and only if it is staged or at or below a listed directory |
| Volumes.AllowedEntryByEntry | hadcd_workloads/container.py:74-104 | besides what is staged, each entry of the list allows just the paths at or below the directory it names, a blank one none |
| Volumes.BuildVolumes | hadcd_workloads/container.py:301-330 | the task is refused if and only if a spec lacks a path, has a mode other than "ro", "rw" or none, or is not allowed; else every host path in the table is allowed and mounted as the last spec naming it says, read-only unless that says "rw" |
| Blobs.SafeNameIsStable | agent/blob_client.py:40-52 | reducing a safe name again changes nothing if and only if the name was usable or the fallback survives being reduced |
| Blobs.SafeNameIsTail | agent/blob_client.py:49-52 | a usable name's safe form is the text behind its last separator less the whitespace around it, and nothing else |
| Blobs.InputsKeepContent | agent/blob_client.py:191-206 | after the downloads every input holds its own blob if and only if no two different blobs go to one place |
| Blobs.SamePlace | agent/blob_client.py:49-52 | with usable names that is if and only if the names reduce to the same |
| Blobs.MountedIsDownloaded | agent/agent.py:996-1035 | the file downloaded is the file mounted, as a resolved path, if and only if the blob's own name was usable, or its id cannot be reduced to a name, or the id as a path leads back to the directory and there to its own base |
| Blobs.UsableStaysInside | agent/blob_client.py:50-52 | a usable name resolves to one component directly inside the directory |
| Blobs.DownloadAll | agent/blob_client.py:175-206 | destinations in spec order and the files they leave, all inside the directory, stopping at the first refusal or failure |
| Blobs.InsideExactly | agent/blob_client.py:201 | a destination passes the containment test if and only if it is the directory or below it |
| Blobs.StagedInputsMount | agent/agent.py:996-1035 | with a usable name the staged input is downloaded inside the staging directory, mounted from there, and let through by the mount policy |

## Left out

- Pool.Step: models one transfer job at a time, as the transfer loop runs them; listing jobs and choosing them is not part of this model.
- Pool.Step: a write reaches the file at once; Python's file buffer and a power failure that loses synced data are not modelled. A crash is the death of the process.
- Rental.Step: tasks are steps of a state, not coroutines; the details of the container (image, port, network, password) are left out, and "other" session types differ only in those.
- Rental.CreateStep: a start that fails before `containers.run` (no Docker, no network, no models path) is the same as one that Docker refuses.
- Setback.Step: a thermostat write still in flight when the agent dies is taken as lost; one that lands after the restart is not modelled. A `set_setpoint` that raises something other than an HTTP error is not either.
- Setback.HeatOverride.Apply: setpoints are kept exactly; the rounding of the thermostat is in `Setpoint`.
- Vast.VastProvider.Update: takes a payout log as configured, and every write to it as done (a failed one is only logged); the POST of a finished session to the backend is left out, and so is an override that arrives while a tick runs in its thread.
- VastLoop.Loop: a backend answer that is JSON but no object, on which the tick would raise, is not modelled; a tick that raises ends the loop, and the end of the agent that follows is left out.
- RentalDocker.FilterIsExact: ids with characters that Docker does not allow in a name, which a regular expression may read as operators, are outside this model.
- WeatherSchedule.PreListing: takes local time to be ahead of UTC by one constant amount; a change of clocks between now and the next window is not modelled.
- WeatherLaws.GridWindow: assumes a strictly hourly grid; days with a clock change are left out.
- HeaterLoop.Loop: what each call does to the heater is given with the call; Home Assistant or the occupants switching it meanwhile are not modelled.
- Fallback.Agent.AfterPost: a miner task that raises while it is being stopped, which would end the heartbeat loop, is not modelled.
- StateFile.AgentState.Save: the temporary file and the rename are one atomic replacement. An integer setpoint that fits a float is kept exactly, and running out of memory is left out.
- Setpoint.ReadBack: numbers are reals; binary floating point is left out here and everywhere.
- Volumes.CheckMountAllowed: starts from resolved paths; symbolic links and `normcase` are left out, and so are race conditions between the test and the mount.
- EnvFile.MergeEnv: updates are strings, and the rename, the mode and the owner of the new file are left out.
- `_is_configured`, `_demand_loop`, media model sync, model-volume scan, security options of the container handler, upload of outputs: easy next to what is here, or plumbing.
- HTTP, Docker, subprocess, systemd, Kasa and Ecobee calls, OAuth, web pages, logging, CSV and JSON text formats, SHA-256 internals (an arbitrary function to names).
