# Verified model of the hotel voice agent

The hotel voice agent is a Django service around a language model. Five of its parts keep state or handle
unbounded text in ways that are easy to get subtly wrong. This project models them in Dafny and proves what
they keep, over all inputs, all runs and all interleavings.

| files | what they model |
|---|---|
| `RateLimit.dfy`, `LimiterLaw.dfy`, `Middleware.dfy`, `RateLimitRace.dfy` | the rate limiter: one key, the law of its answers, all keys in one cache, and overlapping requests |
| `Tags.dfy`, `VoiceAgent.dfy`, `Conversation.dfy`, `PyStrings.dfy` | the service-request tag in a reply, one turn of the pipeline, the message list |
| `Lockout.dfy`, `LockoutRace.dfy` | account lockout and the login view around it, alone and with overlapping logins |
| `Sessions.dfy`, `SessionLosses.dfy`, `SessionFinality.dfy`, `SessionTimes.dfy`, `Gauge.dfy`, `SessionViews.dfy` | voice sessions: overlapping turns, ends and sweeps, lost turns, final states, durations, the gauge, the objects |
| `Kafka.dfy`, `KafkaDelivery.dfy`, `KafkaDrain.dfy` | the consumer: retry loop and dead letters, delivery across crashes, draining |
| `Common.dfy` | options and a few sequence helpers |

`dafny verify dfyconfig.toml` checks the whole project. Classes follow the source's objects; each of their
methods is tied to a function on values, and the theorems are about those functions and the step systems built
from them. Times are seconds as reals. What a handler, the language model, the JSON parser, the credential check
or the digest answers is a parameter, so the theorems hold for every answer.

## Main results

* **Limiter.** `AnswersAreLawful`: the answers to a key are those, and only those, that its earlier requests and
  answers call for, without any cache in the statement; `ClientAnswersAreLawful` says so of one client among all others.
  The module calls itself a sliding window limiter, but a window starts with the first request.
  `SlidingBound` gives the true bound, `SlidingBoundAttained` shows that it is exact for every rule, and
  `SlidingWindowPromiseIffLimitOne` says that the documented promise holds for a limit of one only (the
  configured limits are 5, 3 and 10). `ClientBoundWithoutCollisions` carries the bound to any (address, path) in a
  cache that all clients share. The bound is one for each path, not for each address (`OneAddressManyPaths`).
  `RaceBound` and `RaceBoundAttained` say exactly how far overlapping requests can go beyond the limit.
* **Tags.** `SplitOfText` and `SplitUnique`: the substitution leaves exactly the gaps of the one split of the
  text into gaps and blocks. The comment "strip XML tags" is not always true: `OpeningTagLeftIff` and `BlockLeftIff`
  say exactly when an opening tag, or a whole block, is left in, or put together by, the cleaned text;
  `RemovalMakesTag` gives the replies that fail. `TurnFailsIff` and `TurnCosts` say when a turn fails and what it costs.
* **Lockout.** `CounterIsFailuresSinceSuccess` and `OutcomesFollowHistory`: every counter, lock and answer of a run,
  successes included, in terms of the attempts and answers before it. `LockoutSlidingBound` and `LockoutSlidingBoundAttained`: for logins one after the other at most five
  failed checks in any half hour without a success, and k + 4 in k half hours. The view does not catch a check that
  raises: `LockComesIff` says that the lock comes exactly when five checks have *answered* no. Overlapping logins lose
  counts and even the lock. With p of them at most p + 4 failures are recorded in half an hour if none is overtaken by
  another save between its read and its save (`OrderedLoginsBound`), and at most C(p + 5, 5) - 1 in general
  (`OverlappingLoginsBound`), which is attained for every p (`OverlappingLoginsBoundAttained`): 20 for two, 55 for three.
* **Sessions.** `SnapshotConsistency`: lost updates never make the counters disagree with the transcript, which tells what
  was said in the turns it accounts for; `PromptOfStoredSession`: the last five of these are what the model is sent.
  `NothingLostIff`: a session holds every turn exactly when no save of a turn had another one between its own read and
  itself. A status that looks terminal is not final while certain requests are in flight; `CompletedFinalIff`,
  `FailedFinalIff`, `TimedOutFinalIff` and `EndTimeFinalIff` say which. `RecordedDurationExact` bounds when durations are
  true. The gauge is meant to count active sessions; it also keeps failed and timed-out ones (`GaugeLaw`), and loses
  one for each end that is saved again or overwritten (`GaugeUnderOverlap`). Audio sent over the socket always ends in
  an exception (`HandleAudioInput`), although the protocol comment offers it.
* **Kafka.** `RetryLoopRefinesFold`, `LoopCommits` (exactly the messages that do not raise are committed), `AtLeastOnce`, and `DrainsIffDeadLettersUnhandled`: because the consumer reads
  the topic it sends dead letters to, it is sure to come to the end of its log, where no message raises, exactly when
  no handler is registered for them. A message that is JSON but no object raises and stops its partition for good
  (`NotAnEventStopsPartition`). The third backoff of 15 seconds is never used, and the topics created with the suffix
  `.dlq` receive nothing.

## Model

| member | source | states |
|---|---|---|
| RateLimit.SlidingBound | hotel_agent/core/middleware.py:87-112 | One key, any run: an interval no longer than k windows admits at most limit·k + limit − 1 requests, so 2·limit − 1 for one window |
| RateLimit.SlidingBoundAttained | hotel_agent/core/middleware.py:95-110 | For every rule and every k there is a run that admits exactly that many |
| RateLimit.SlidingWindowPromiseIffLimitOne | hotel_agent/core/middleware.py:62-73 | The documented sliding window (never more than limit in one window) holds if and only if the limit is 1 |
| RateLimit.SlotInvariant | hotel_agent/core/middleware.py:95-110 | Over every run a stored counter is in 1..limit, and no entry outlives its window or block duration |
| RateLimit.BlockSoundness | hotel_agent/core/middleware.py:87-110 | After a limit rejection nothing is admitted for BLOCK_DURATION and asking does not prolong it; the next request is admitted with a fresh count of 1 |
| LimiterLaw.AnswersAreLawful | hotel_agent/core/middleware.py:83-112 | On every sorted run from an empty cache the answers are exactly those for which a request is blocked iff an earlier one went over the limit less than 300 s before, goes over the limit iff it is not blocked and limit requests were admitted in the counter life that contains it, and is admitted otherwise |
| Middleware.MatchRuleUnique | hotel_agent/core/middleware.py:114-118 | A path gets a rule exactly when it has that rule's prefix, and never two |
| Middleware.ClientIpIsFirstForwarded | hotel_agent/core/middleware.py:120-123 | The client is the first forwarded address without the white space around it, whatever follows |
| Middleware.ClientIpIsPeer | hotel_agent/core/middleware.py:120-123 | Without a forwarded list, or with an empty one, the client is the peer address, or "unknown" |
| Middleware.RateLimitMiddleware.ProcessRequest | hotel_agent/core/middleware.py:75-112 | The method on the cache object does to all entries, and answers, what the whole-cache specification says |
| Middleware.TtlCache.Incr | hotel_agent/core/middleware.py:109-110 | Adds one and keeps the expiry; on a missing or lapsed key it changes nothing and says so |
| Middleware.ProcessActsOnOneKey | hotel_agent/core/middleware.py:83-110 | A request acts on its own counter and block exactly as the one-key model says and leaves every other key alone |
| Middleware.RunProjectsToOneKey | hotel_agent/core/middleware.py:83-112 | The answers to one (address, path) in any run of any clients are those of the one-key model on its own requests |
| Middleware.UnlimitedIff | hotel_agent/core/middleware.py:79-81 | A request is not limited, and leaves the cache as it is, exactly when its path has none of the three prefixes |
| Middleware.ClientAnswersAreLawful | hotel_agent/core/middleware.py:75-112 | The law of the limiter for any (address, path) among any other traffic |
| Middleware.ClientBound | hotel_agent/core/middleware.py:75-112 | The sliding bound for any (address, path) among any other traffic in the same cache |
| Middleware.ClientBoundWithoutCollisions | hotel_agent/core/middleware.py:75-128 | The same bound where addresses hold no '/' and no request of the run collides with the digest of (address, path) |
| Middleware.ConfiguredBounds | hotel_agent/core/middleware.py:68-72 | In one window of theirs: at most 9 token requests, 5 registrations, 19 voice requests of one (address, path) |
| Middleware.OneAddressManyPaths | hotel_agent/core/middleware.py:75-128 | One address gets any number of requests to the voice prefix admitted at one moment if their paths differ and their digests do not collide |
| Middleware.KeysDisjoint | hotel_agent/core/middleware.py:84-85 | A block key is no counter key; two block keys agree only if the counter keys do |
| Middleware.SharedRawKeyIff | hotel_agent/core/middleware.py:126-128 | Exactly when two (address, path) pairs are counted together: one address swallows a ':' and the head of the other's path |
| Middleware.AddressesWithoutSlash | hotel_agent/core/middleware.py:126-128 | Addresses without '/' never share a key on limited paths |
| RateLimitRace.RaceBound | hotel_agent/core/middleware.py:95-110 | With at most p requests between read and write the counter stays at or below limit + p − 1; in one life of the counter at most p·limit + p·(p − 1)/2 are admitted (p if the limit is 1), and limit + p − 1 if no late writer resets it |
| RateLimitRace.RaceBoundAttained | hotel_agent/core/middleware.py:95-110 | For every rule and every p there is a run that admits exactly that many |
| RateLimitRace.WriteOutcome | hotel_agent/core/middleware.py:107-110 | A late writer starts a new life if it had read nothing, adds one if the counter is still there, and fails uncounted if it is gone |
| RateLimitRace.SequentialIsSlotStep | hotel_agent/core/middleware.py:87-112 | A read directly followed by its write is the atomic request of the one-key model |
| PyStrings.StripIsTheMiddle | hotel_agent/services/voice_agent.py:228-242 | Stripping takes white space, and only that, off both ends |
| Tags.SearchIsLeftmostNonGreedy | hotel_agent/services/voice_agent.py:223-226 | First opening tag, then first closing tag, is the leftmost non-greedy match; there is none exactly when there is no block |
| Tags.RemoveBlocksScan | hotel_agent/services/voice_agent.py:238-241 | The match-to-match scan computes the substitution |
| Tags.SplitOfText | hotel_agent/services/voice_agent.py:238-241 | Every text splits into gaps and blocks that rebuild it, the gaps being what the substitution leaves |
| Tags.SplitUnique | hotel_agent/services/voice_agent.py:238-241 | There is only one such split |
| Tags.RemoveBlocksOfSplit | hotel_agent/services/voice_agent.py:238-241 | A text put together from gaps and blocks is cleaned to its gaps |
| Tags.SearchRoundTrip | hotel_agent/services/voice_agent.py:223-228 | Prose without opening tag, a block, any rest: the search finds that block and the group is its payload |
| Tags.OpeningTagLeftIff | hotel_agent/services/voice_agent.py:238-242 | The cleaned text has an opening tag if and only if the last gap has one or the two sides of a removed block spell one |
| Tags.RemovalMakesTag | hotel_agent/services/voice_agent.py:238-242 | Wherever an opening tag is cut in two by an empty block, the substitution puts it together again |
| Tags.BlockLeftIff | hotel_agent/services/voice_agent.py:238-242 | The cleaned text has a complete block, and a second cleaning removes more, if and only if the sides of a removed block spell an opening tag with a closing tag after it |
| VoiceAgent.TagRoundTrip | hotel_agent/services/voice_agent.py:219-242 | Extractor and cleaner on prose, block and tail: the stripped payload to the parser, prose and tail to speech |
| VoiceAgent.ReplyOfSplit | hotel_agent/services/voice_agent.py:219-242 | The same for any number of blocks: the first payload to the parser, all the gaps to speech |
| VoiceAgent.TurnAsks | hotel_agent/services/voice_agent.py:117-135 | The model is asked with the text if there is any and else the transcription, after system prompt and the last ten messages of the history as they are |
| VoiceAgent.ExtractorMeetsCleaner | hotel_agent/services/voice_agent.py:219-242 | The extractor has a payload exactly when the cleaner removes something, and it is the inside of the first removed block |
| VoiceAgent.ExtractionOutcome | hotel_agent/services/voice_agent.py:219-235 | Exactly when a reply gives no request or raises; a request is as parsed if it names a known service type, and has the type "other" if not |
| VoiceAgent.TurnFailsIff | hotel_agent/services/voice_agent.py:173-204 | A turn fails exactly without text and transcription, without an answer of the model, when the extractor raises, or when speech is wanted for a reply with words and fails |
| VoiceAgent.TurnCosts | hotel_agent/services/voice_agent.py:155-204 | Tokens are those of the completion; there is audio exactly when it is wanted and words are left, exactly then speech is charged, by the characters of the cleaned reply, which is what was synthesized exactly up to 4096; without audio text and request are the same |
| VoiceAgent.ProcessVoiceTurn | hotel_agent/services/voice_agent.py:173-204 | The pipeline with its early returns has the result that the two lemmas are about |
| Conversation.BuildMessages | hotel_agent/services/voice_agent.py:117-123 | The loop builds the system message, the last ten messages of the history unchanged and in order, the user message |
| Conversation.PromptContents | hotel_agent/services/voice_agent.py:117-123 | A list is the prompt exactly when it has n + 2 messages, n the smaller of 10 and the length of the history: first the system prompt, last the new words, between them the last n of the history |
| Conversation.PromptShape | hotel_agent/services/voice_agent.py:117-123 | On a history of user/assistant pairs the list alternates from user to user after one system message, with at most ten of the history |
| Lockout.User.RecordFailedLogin | hotel_agent/core/models.py:89-93 | Counts the failure and, from the fifth on, locks for thirty minutes from now |
| Lockout.User.ResetFailedLogin | hotel_agent/core/models.py:95-99 | Afterwards nothing is counted, and the lock is gone if anything was |
| Lockout.Post | hotel_agent/api/views/main.py:52-83 | The login view does to the user, and answers, what the login specification says; a locked account gets 423 unchecked, a success clears the counter |
| Lockout.CounterIsFailuresSinceSuccess | hotel_agent/core/models.py:84-99 | In every run from a new account the counter is the number of failures since the last success; a lock is set, until thirty minutes after the last failure, exactly when they are five or more |
| Lockout.OutcomesFollowHistory | hotel_agent/api/views/main.py:52-83 | Each attempt is refused exactly if five failures since the last success, the last less than thirty minutes ago, precede it; otherwise success iff the check says 200, failure iff it says anything else, passed on iff it raises |
| Lockout.LockSetIffFiveFailures | hotel_agent/core/models.py:84-99 | Over every run the counter is five or more exactly when a lock time is set |
| Lockout.LockoutSlidingBound | hotel_agent/api/views/main.py:52-83 | Attempts without a success in an interval of at most k half hours hold at most k + 4 failed checks: five in any half hour |
| Lockout.FailuresApartAfterLock | hotel_agent/api/views/main.py:52-83 | From the fifth on, failures without a success between them are at least thirty minutes apart |
| Lockout.LockoutSlidingBoundAttained | hotel_agent/api/views/main.py:52-83 | For every k there is a stretch without a success, within k half hours, with exactly k + 4 failed checks |
| Lockout.FiveFailuresLock | hotel_agent/core/models.py:89-93 | Five failures lock until exactly thirty minutes later |
| Lockout.LockComesIff | hotel_agent/api/views/main.py:64-75 | Without a success, a lock is set exactly when the failures counted before and the checks that answered other than 200 make five |
| LockoutRace.LockSetIffFiveWhenOverlapping | hotel_agent/core/models.py:89-99 | Under every interleaving of reads and saves the stored counter is five or more exactly when a lock time is set |
| LockoutRace.OrderedLoginsBound | hotel_agent/api/views/main.py:52-83 | With p logins in flight and no recording overtaken by a save between its read and its save, half an hour without a success records at most p + 4 failures |
| LockoutRace.OverlappingLoginsBound | hotel_agent/api/views/main.py:52-83 | However reads and saves overlap, it records at most C(p + 5, 5) − 1 |
| LockoutRace.OverlappingLoginsBoundAttained | hotel_agent/api/views/main.py:52-83 | For every p a run at one moment records exactly that many, which is more than p + 4 for p of two or more |
| LockoutRace.StaleSaveUnlocks | hotel_agent/core/models.py:89-93 | One recording that was read on a fresh account leaves any account, locked ones too, unlocked with a count of one |
| LockoutRace.ResetClearsIff | hotel_agent/api/views/main.py:64-70 | A completed reset leaves a clear account exactly when its read saw a failure or there is none; otherwise it changes nothing |
| LockoutRace.CounterWhenNoneStale | hotel_agent/core/models.py:89-99 | While no save is overtaken, overlapping logins with successes leave the number of failures since the last reset, and a lock exactly from five on |
| Lockout.RaisingChecksNeverLock | hotel_agent/api/views/main.py:64-75 | So checks that raise leave the account as it was, however many |
| Sessions.SnapshotConsistency | hotel_agent/api/views/main.py:167-217 | Under every interleaving a stored row counts exactly the tokens and characters of the turns in its transcript, each a saved turn, in order, none twice, and shows for each the user's words and then the reply with the time of the save |
| SessionLosses.NothingLostIff | hotel_agent/api/views/main.py:167-217 | In every run, the three columns hold every turn ever saved on the session, as many entries as these give, exactly when no save of a turn on it had another between its own read and itself |
| Sessions.OverlappingTurnsLoseOne | hotel_agent/api/views/main.py:167-217 | Two overlapping turns of which one is lost |
| Sessions.StatusSafety | hotel_agent/api/views/main.py:202-265 | In every run: never back to active, no late timeout, completed and timeout have an end time (timeout one over two hours after the start), an end time rules out active and stays |
| Sessions.FailingTurnOverwritesCompleted | hotel_agent/api/views/main.py:202-206 | A run in which a turn that overlaps the end and fails turns completed into failed and leaves the end time |
| SessionFinality.CompletedFinalIff | hotel_agent/api/views/main.py:202-206 | A completed session stays completed in every continuation exactly when no turn on it is in flight |
| SessionFinality.FailedFinalIff | hotel_agent/api/views/main.py:261-265 | A failed session stays failed in every continuation exactly when no end of it is in flight |
| SessionFinality.TimedOutFinalIff | hotel_agent/api/views/main.py:202-265 | A timed-out session stays so in every continuation exactly when nothing on it is in flight |
| SessionFinality.EndTimeFinalIff | hotel_agent/api/views/main.py:261-265 | A recorded end time stays as it is in every continuation exactly when no end is in flight |
| Sessions.PromptOfStoredSession | hotel_agent/api/views/main.py:186-201 | In every reachable state the turn's message list is the system prompt, the words and replies of the last five turns the row accounts for, and the new words; cutting the history first changes nothing |
| SessionTimes.ActiveAtMostThreeHours | hotel_agent/core/tasks.py:66-74 | With hourly sweeps no session stays active for more than three hours |
| SessionTimes.DurationExactIff | hotel_agent/api/views/main.py:263-264 | The seconds field is the whole elapsed time exactly below one day, and off by whole days otherwise |
| SessionTimes.RecordedDurationExact | hotel_agent/api/views/main.py:261-265 | With hourly sweeps every end that takes less than 21 hours records the true number of seconds |
| Gauge.GaugeConservation | hotel_agent/api/views/main.py:267 | Under every interleaving the gauge is sessions − saved ends + open sockets − stray disconnects |
| Gauge.SocketRoundTrip | hotel_agent/api/consumers.py:40-67 | A socket with a user is counted from connect to disconnect; one without is not counted, and its disconnect takes one off |
| Gauge.GaugeLaw | hotel_agent/api/consumers.py:45-67 | Without overlap the gauge is active + failed + timed-out sessions + open sockets − stray disconnects, and means active sessions and open sockets exactly when the rest cancels |
| Gauge.GaugeUnderOverlap | hotel_agent/api/views/main.py:261-267 | Under every interleaving the gauge is at most active + failed + timed-out sessions + open sockets − stray disconnects, with equality exactly when every saved end was of another session and that session is still completed |
| Gauge.FailedSessionStaysInGauge | hotel_agent/api/views/main.py:202-206 | After one session that failed the gauge is one, with no active session and no open socket |
| SessionViews.VoiceSessionViewSet.Load | hotel_agent/api/views/main.py:167-169 | A fresh copy of an active row, otherwise not found or bad request |
| SessionViews.VoiceSessionViewSet.FinishTurn | hotel_agent/api/views/main.py:208-217 | Writes the copy's transcript with the user's words and the reply at its end, and the copy's counters with the turn's added, whatever is stored by then |
| SessionViews.VoiceSessionViewSet.FinishEnd | hotel_agent/api/views/main.py:261-267 | Writes status, end and duration from the copy and lowers the gauge |
| SessionViews.VoiceSessionViewSet.ProcessTurn | hotel_agent/api/views/main.py:160-217 | A turn with nothing in between: every status code and the row after it, on the full history |
| SessionViews.VoiceSessionViewSet.EndSession | hotel_agent/api/views/main.py:254-273 | An end with nothing in between: works exactly on an active session |
| SessionViews.CleanupExpiredSessions | hotel_agent/core/tasks.py:66-74 | Exactly the active rows older than two hours become timed out, ended now; the count is their number |
| SessionViews.VoiceSessionConsumer.Connect | hotel_agent/api/consumers.py:40-56 | Accepted exactly with a user; only then is the gauge raised |
| SessionViews.VoiceSessionConsumer.Disconnect | hotel_agent/api/consumers.py:64-67 | Lowers the gauge whether or not the socket was accepted |
| SessionViews.VoiceSessionConsumer.HandleTextInput | hotel_agent/api/consumers.py:89-113 | The in-memory history grows by one pair exactly when the turn works, and stays pairs |
| SessionViews.VoiceSessionConsumer.HandleAudioInput | hotel_agent/api/consumers.py:130-143 | Audio that decodes always raises; there is never a reply |
| SessionViews.SocketPromptShape | hotel_agent/api/consumers.py:98-113 | In every state of a socket the next message list has the right shape and ends with the last ten messages of the socket's history and the new words |
| Kafka.KafkaConsumerService.RegisterHandler | hotel_agent/kafka/producer_consumer.py:195-200 | Appends the handler to its type's list and changes no other |
| Kafka.KafkaConsumerService.CallWithRetry | hotel_agent/kafka/producer_consumer.py:239-256 | The while loop's calls, sleeps and dead letter are those of the specification |
| Kafka.KafkaConsumerService.ProcessMessage | hotel_agent/kafka/producer_consumer.py:226-262 | All effects of a message in order, the commit last; raises exactly when the JSON is no event, and then does nothing; without a handler, or if the bytes are no JSON, it only commits |
| Kafka.KafkaConsumerService.Start | hotel_agent/kafka/producer_consumer.py:202-221 | The loop gets through all polls or stops at the first message that raises, with the effects of exactly those before it |
| Kafka.ProcessEndsInCommit | hotel_agent/kafka/producer_consumer.py:226-262 | For every message that does not raise, the commit of its own offset is the last effect and the only commit, and the only effect exactly when the bytes are no JSON or no handler is registered |
| Kafka.LoopCommits | hotel_agent/kafka/producer_consumer.py:202-262 | The commits of the loop are those of the polled messages that do not raise, in order |
| Kafka.PollWorkedThrough | hotel_agent/kafka/producer_consumer.py:202-221 | Each polled message is worked through in its turn, after the commits of those before it |
| Kafka.HandlerEffectsInFull | hotel_agent/kafka/producer_consumer.py:238-256 | The calls, the sleeps of 1 and 5 seconds and the dead letter of a handler that fails 0, 1, 2 or 3 times, in order |
| Kafka.RegisterAllHandlers | hotel_agent/kafka/handlers.py:78-84 | Builds the registry of the four event types |
| Kafka.PublishedTypesWithHandlers | hotel_agent/kafka/handlers.py:78-83 | Of the event types the code publishes only "notification" has a handler |
| Kafka.FailsFrom | hotel_agent/kafka/producer_consumer.py:239-256 | The number of failures before the first success, at most three |
| Kafka.MessageCounts | hotel_agent/kafka/producer_consumer.py:238-256 | Calls of each handler, returns, dead letters and sleeping time of a message |
| Kafka.MessageOrder | hotel_agent/kafka/producer_consumer.py:238-276 | Handlers run in registration order, one after the other; dead letters name the message; no commit in between |
| Kafka.RetryLoopRefinesFold | hotel_agent/kafka/producer_consumer.py:226-276 | For any handlers' behaviour: up to three calls each, returned iff one of three succeeds, as many dead letters as exhausted handlers, at most 6 s of sleep per handler, commit last |
| KafkaDelivery.AtLeastOnce | hotel_agent/kafka/producer_consumer.py:202-262 | Over all runs with crashes and late, lost or reordered commits: every offset below a committed one was worked through in some pass, each handler having returned or been dead-lettered |
| KafkaDelivery.NotAnEventStopsPartition | hotel_agent/kafka/producer_consumer.py:228-262 | No commit ever passes a message whose JSON is no event |
| KafkaDelivery.NotAnEventTakesDown | hotel_agent/kafka/producer_consumer.py:202-262 | Such a message takes the consumer down, and a restart is back at the committed offset with nothing done; nothing is polled while another message is worked on |
| KafkaDelivery.UninterruptedPass | hotel_agent/kafka/producer_consumer.py:226-258 | The steps of a pass that nothing interrupts add up to what the method ProcessMessage does, one offset further and one commit request |
| KafkaDelivery.RedeliveredAfterCrash | hotel_agent/kafka/producer_consumer.py:181-182 | A crash before the commit is applied has the message worked through again, whatever its handlers do |
| KafkaDelivery.AppliedCommitStands | hotel_agent/kafka/producer_consumer.py:181-182 | A crash after the commit was applied goes on with the next message |
| KafkaDelivery.LogIsWhatWasAppended | hotel_agent/kafka/producer_consumer.py:202-217 | In every run a partition holds what was appended to it, in order, and the consumer changes none of it |
| KafkaDrain.RunBounded | hotel_agent/kafka/producer_consumer.py:229-276 | Without a handler for dead letters a run takes at most as many polls as the unread messages weigh |
| KafkaDrain.DeliverAppends | hotel_agent/kafka/producer_consumer.py:264-276 | Each dead letter arrives behind what its partition holds |
| KafkaDrain.DrainsIffDeadLettersUnhandled | hotel_agent/kafka/producer_consumer.py:264-276 | From every log all runs are bounded, and if no message raises all that cannot go on have emptied it, if and only if no handler is registered for dead letters |
| KafkaDrain.RegisteredHandlersDrain | hotel_agent/kafka/handlers.py:78-84 | With the registered handlers this holds, and a run over messages of which none raises cannot go on exactly when the log is empty |

## Left out

- Lockout.AfterFailure: counts without bound where the column holds at most 32767; by FailuresApartAfterLock, reaching that takes almost two years of failures without one success.
- Lockout.Post: models a user that exists; whether the library's credential check answers or raises on a wrong password is not part of this model, both are allowed.
- LockoutRace.Step: the lock time is taken from the clock at the save, where the source reads the clock just before it; last_login_ip, which a success writes, is not part of the overlapping model.
- Sessions.Step: token and character counters are unbounded where the columns hold 31 bits.
- Middleware.ClientBound: assumes that no other (address, path) of the run has the same digest, which ClientBoundWithoutCollisions derives from the run; a digest of 40 characters cannot be free of collisions on all strings.
- Kafka.KafkaConsumerService.Start: the poll results up to the stop signal are a parameter; broker errors other than "nothing polled" are only logged by the source.
- Kafka.KafkaConsumerService.SendToDlq: the error text and the original bytes in the dead letter, and a producer queue that is full (it raises out of the loop, which the Crash step of KafkaDelivery covers).
- KafkaDrain.DrainStep: handlers do not publish to Kafka themselves; what their Celery tasks do is not part of this model.
- Rebalancing, offset retention, producer batching and delivery reports; topics as such.
- The language model, Whisper, speech synthesis, base64, JSON and UTF-8 decoding: parameters.
- Service requests stored after a turn, the events published by create and end, response bodies.
- Bookings, rooms, permissions, serializers, the read replica, logging, metrics other than the session gauge.
- Deleting a session through the generic route, which would leave the gauge as it is.
