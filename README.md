# A model of the vision subnet's validator and miner core

This project models the core of the subnet's validator and miner proxy. It
covers five areas:

- **Validator state.** How the validator rebuilds its peer table from the
  metagraph, and how it fetches each peer's declared capacity per task. The
  capacities are corrected for the task maxima, posted to the stats service,
  then scaled by the validator's share of stake.
- **Routing.** How a request is classified into a task. How each validator
  draws the seeds it sends from a block of its own. How axons are ordered by
  perturbed probability.
- **Request encoding.** How a request object is packed into HTTP headers,
  including the base64 encoding of the dummy input objects and the cached
  JSON schema.
- **Miner streaming.** How the miner streams text. The worker's server-sent
  events are reshaped into `data:` frames and forwarded over ASGI.
- **Image operations.** How the miner copies a generation's output onto the
  request, and how the validator checks an image response before returning
  it.

Python objects whose attributes change are classes, as they are in the source:
`Validator.CoreValidator`, `SynapseHeaders.SynapseClass`,
`FieldValues.SynapseObject`, `ChatLogic.MinerRequestsStats` and
`ChatOperation.ResponseChannel`. Each loop that updates state is a method with
invariants; `get_task_config`'s search of `TASK_CONFIGS` is the recursive
function `Tasks.FindTaskConfig`, and the loop over the external servers, which
has one entry, is `CoreValidation.ConnectToExternalServer` for that entry. Each method is proved against a specification function, and that
function's properties are proved as lemmas. Pure tables and classifiers are
functions.

Values the program gets from outside are inputs to the model:

- Random draws: randint's pick, and the Gumbel noise.
- Logarithms.
- JSON encoding and decoding, `str()`, UTF-8 decoding, `sys.getsizeof`, the
  body hash.
- The peers' answers, the health-check results, the chunks a worker sends,
  and how many messages a client takes before it disconnects.

Floats are `real`. The main-network netuid is 19.

Two behaviours of the code that are easy to miss:

- **Capacities below 1.** In `_correct_for_max_capacities`, line 166 overwrites
  the zero that line 165 writes for a capacity below 1. So such a capacity is
  kept, only cut to the task maximum. `CapacityTables.ClampedToMaxEntries`
  states this.
- **The concurrency decrement.** In `stream_text_from_server` the decrement is
  not in a `finally`. A worker stream that breaks off skips the decrement.
  `ChatLogic.StreamTextFromServerAsWritten`, which models the code as written,
  states this, and so does the corrected `ChatLogic.StreamTextFromServer`.

## Model

| member | source | states |
|---|---|---|
| Core.AllTasksComplete | validation/core_validator.py:154-157 | `for task in Task` visits every member of the task enumeration, each exactly once |
| CoreUtils.GetSeed | core/utils.py:63-67 | the seed lies in the validator's block `[chunk*uid, chunk*(uid+1)-1]`; randint fails exactly when the chunk size is below 1 |
| CoreUtils.SeedRangeIsExact | core/utils.py:63-67 | the block holds exactly seed_chunk_size values, and each of them can be drawn |
| CoreUtils.SeedRangesDisjoint | core/utils.py:63-67 | two different validator uids never draw the same seed |
| CoreUtils.BlocksOrdered | core/utils.py:63-67 | a lower uid's block ends before a higher uid's block begins |
| GetSynapse.SynapseArguments | validation/proxy/get_synapse.py:13-15 | the keyword arguments passed to the synapse class are the body's fields with the seed set to one drawn from the validator's block; they fail exactly when get_seed does |
| GetSynapse.GetSynapseFromBody | validation/proxy/get_synapse.py:9-17 | the synapse is what its constructor makes of those keyword arguments; the call fails with get_seed's error when the seed chunk size is below one |
| GetSynapse.SeedAlwaysOverwritten | validation/proxy/get_synapse.py:13-16 | whatever seed the client sent, the constructor receives the drawn seed, and the synapse carries it when the constructor keeps the seed it is given |
| GetSynapse.ValidatorsNeverShareSeeds | validation/proxy/get_synapse.py:15-16 | requests built by two different validators never carry the same seed |
| FieldValues.SynapseObject.constructor | mining/proxy/operations/text_to_image_operation.py:22 | a request object starts with the given fields |
| FieldValues.SynapseObject.SetAttr | mining/proxy/operations/text_to_image_operation.py:25 | setattr sets that one field and changes no other |
| Tasks.TablesAreTotal | core/tasks.py:24-67 | TASK_IS_STREAM and TASKS_TO_SYNAPSE cover every task; a task is streamed, and is served by the Chat synapse, exactly when it is a chat task |
| Tasks.GetTaskFromSynapse | core/tasks.py:70-113 | a recognised task belongs to the request's own class; chat and image requests are recognised exactly when the model or engine is an enumeration value; Inpaint and Avatar always are; other classes never are |
| Tasks.ClassificationIsOnto | core/tasks.py:70-113 | every task is the classification of the request that names it |
| Tasks.ClassificationIsInjective | core/tasks.py:70-113 | two requests with the same task have the same class and the same model or engine |
| Tasks.FindTaskConfig | core/tasks.py:145-149 | the result is the first configuration for the task; ValueError exactly when no configuration names it, and the error names the task |
| Tasks.ConfiguredTasks | core/tasks.py:130-142 | TASK_CONFIGS names every task except the two legacy chat models and the two playground tasks, and names none of those four |
| Tasks.GetTaskConfigCases | core/tasks.py:130-149 | get_task_config fails exactly for the four unconfigured tasks; otherwise it returns the task's own configuration, typed TEXT exactly for a chat task |
| Tasks.TaskConfigsWellFormed | core/tasks.py:130-142 | each task appears at most once in TASK_CONFIGS, and TEXT is used exactly for the chat tasks |
| UtilityModels.EnumValuesDistinct | models/utility_models.py:24-28 | distinct chat models have distinct values, and so do distinct engines, so comparing strings selects one member |
| UtilityModels.PerturbedScores | models/utility_models.py:59-60 | one score per axon; a score is minus infinity exactly when its probability is 0 |
| UtilityModels.InsertKeepsDescending | models/utility_models.py:61 | inserting an index by its score keeps the order descending |
| UtilityModels.ArgsortDescending | models/utility_models.py:61 | `np.argsort(-scores)` lists every index exactly once, ranked by descending score |
| UtilityModels.ArgsortPrefixProperties | models/utility_models.py:61 | the first n indices are sorted by descending score, each exactly once |
| UtilityModels.ArgsortCoversIndices | models/utility_models.py:61 | argsort(-scores) lists every index |
| UtilityModels.ArgsortIndicesDistinct | models/utility_models.py:61 | argsort(-scores) lists each index only once |
| UtilityModels.PickArgsortPrefix | models/utility_models.py:61 | picking the available axons by the sorted indices keeps the multiset of axons |
| UtilityModels.OrderOfAxonsToQuery | models/utility_models.py:58-61 | the order is a permutation of the available axons, ranked by descending perturbed score |
| UtilityModels.OrderIsPermutation | models/utility_models.py:58-61 | with distinct axon ids, the order lists every available axon exactly once |
| UtilityModels.ZeroProbabilityRankedLast | models/utility_models.py:59-61 | an axon with probability 0 comes after every axon with a positive probability |
| UtilityModels.ZeroProbabilityNotFiltered | models/utility_models.py:58-61 | an axon with probability 0 is still in the order |
| UtilityModels.OrderRespectsStrictlyHigherScores | models/utility_models.py:61 | an axon comes after every axon whose perturbed score is strictly higher |
| PeerTable.IncentiveOrder | validation/core_validator.py:229 | the sort gives positions of the incentive tensor |
| PeerTable.IncentiveOrderIsPermutation | validation/core_validator.py:229 | the sorted positions are every position, each exactly once |
| PeerTable.SortedIncentivesDescend | validation/core_validator.py:229-235 | the stored incentives descend |
| PeerTable.UidInfosKeys | validation/core_validator.py:239-245 | the peer table has exactly the uids at the visited positions |
| PeerTable.UidInfosEntries | validation/core_validator.py:239-245 | a uid last visited at a position is filed with that position's hotkey and axon |
| PeerTable.ResyncCoversMetagraph | validation/core_validator.py:229-245 | with distinct uids, the rebuilt peer table has exactly the metagraph's uids, each with its own hotkey and axon |
| CapacityTables.ClampedToMaxEntries | validation/core_validator.py:159-166 | correcting for the maxima keeps every task and uid; each capacity becomes at most the task maximum and at most the declared value; a value within the maximum is kept, also when it is below 1, and a value above it becomes the maximum |
| CapacityTables.ClampedToMaxIdempotent | validation/core_validator.py:159-166 | correcting for the maxima twice changes nothing more |
| CapacityTables.ScaledByStakeEntries | validation/core_validator.py:151-157 | scaling keeps every task and uid and multiplies each capacity by the stake share |
| CapacityTables.WholeStakeIsIdentity | validation/core_validator.py:151-157 | with the whole stake (a test network), scaling changes nothing |
| CapacityTables.CorrectionsKeepUidsKnown | validation/core_validator.py:151-166 | neither correction adds a uid that has no peer entry |
| CapacityTables.FetchedTableEntries | validation/core_validator.py:203-215 | the rebuilt table holds a capacity for a peer and task exactly when the peer was queried, answered and named the task; the value is the declared volume |
| CapacityTables.FetchIgnoresUnrecognised | validation/core_validator.py:209-213 | tasks outside the enumeration that a peer claims do not affect the table |
| CapacityTables.FetchedUidsKnown | validation/core_validator.py:181-215 | every uid of the rebuilt table is a queried peer, so its hotkey can be looked up when posting |
| CapacityTables.PayloadOf | validation/core_validator.py:252-261 | the posted data holds one record per task and uid of the table, with the validator's hotkey, the peer's hotkey, the task and the volume |
| CapacityTables.PostedVolumesWithinMaximum | validation/core_validator.py:252-261 | the posted records are one per task and uid of the table, under that peer's hotkey and the validator's, with a volume within the task maximum |
| CapacityTables.FetchedTableReads | validation/core_validator.py:203-215 | reading the rebuilt table for any task gives the capacities the peers declared for it |
| CapacityTables.FetchedTableSkip | validation/core_validator.py:206-207 | a peer without an answer adds nothing to the table |
| CapacityTables.FetchedTableAdd | validation/core_validator.py:210-215 | one more answering peer adds exactly its declared volumes for the enumerated tasks |
| CapacityTables.StoredAnswerIsFetched | validation/core_validator.py:210-215 | filing a peer's recognised tasks into the table gives the table rebuilt with that peer included |
| Validator.CoreValidator.constructor | validation/core_validator.py:76-123 | a new validator knows whether it is on a test network, holds the stake share `_my_prop_of_stake` computes for its hotkey (1.0 on a test network), and has empty uid, axon-index, incentive, peer and capacity tables, no uid manager and nothing posted |
| Validator.CoreValidator.ClampCapacities | validation/core_validator.py:161-166 | one task's capacities after the inner loop are the clamped capacities |
| Validator.CoreValidator.ScaleCapacities | validation/core_validator.py:155-157 | one task's capacities after the inner loop are scaled by the stake share |
| Validator.CoreValidator.CorrectForMaxCapacities | validation/core_validator.py:159-166 | the capacity table becomes the table clamped to every task's maximum; nothing else changes |
| Validator.CoreValidator.CorrectCapacitiesForMyStake | validation/core_validator.py:151-157 | the capacity table becomes the table scaled by the validator's stake share; on a test network it is left unchanged |
| Validator.CoreValidator.TaskRecords | validation/core_validator.py:255-261 | one task's records, one per uid under its hotkey, or the KeyError of a uid without a peer entry |
| Validator.CoreValidator.PostMinerCapacities | validation/core_validator.py:252-267 | posts the records of the whole table exactly when every uid has a peer entry, and otherwise fails on such a uid with nothing posted |
| Validator.CoreValidator.PostAndCorrectCapacities | validation/core_validator.py:146-149 | posts the clamped table, unscaled, and leaves the clamped table corrected for the stake share |
| Validator.CoreValidator.FetchAvailableCapacities | validation/core_validator.py:178-216 | the table is rebuilt from the known peers' answers, then clamped, posted and corrected for the stake share |
| Validator.CoreValidator.StoreAnswer | validation/core_validator.py:209-215 | after one peer's answer, the table is the one rebuilt from the peers handled so far |
| Validator.CoreValidator.ResyncMetagraph | validation/core_validator.py:220-250 | stores the uids, the incentive order and the sorted incentives; rebuilds the peer table in that order; then refetches the capacities |
| Validator.CoreValidator.PeerInfos | validation/core_validator.py:239-245 | the loop builds exactly the peer table of the visited positions |
| Validator.CoreValidator.StartScoring | validation/core_validator.py:342-353 | after the resync the uid manager exists; the uids, the incentive order and the sorted incentives are stored, the peer table is the metagraph's, the clamped fetched table is posted once, and the stored table is it corrected for the stake share |
| Validator.CoreValidator.MakeOrganicQuery | validation/core_validator.py:375-383 | a 500 "Server booting, one sec" reply exactly while there is no uid manager; otherwise the query is handed over with its task and stream flag |
| Validator.Element | validation/core_validator.py:181 | the next key a loop over a dict visits is one of its keys |
| CoreValidation.IsTestnet | validation/core_validator.py:83-86 | without a configured netuid the default 19 applies, so only the "test" network is a test network; with one, any netuid other than 19 is a test network too |
| CoreValidation.MyPropOfStake | validation/core_validator.py:89-95 | raises exactly for a hotkey missing from the metagraph; a test network gets 1.0; the share is not a number only on the main network with a zero total stake |
| CoreValidation.MainNetworkIffNetuid19 | validation/core_validator.py:83-86 | the validator is on the main network exactly when the network is not "test" and the netuid, given or defaulted, is 19 |
| CoreValidation.StakeShareIsProportion | validation/core_validator.py:90-95 | an unregistered hotkey raises; on a test network the share is 1.0; otherwise it is the stake at the hotkey's first position over the total, between 0 and 1 |
| CoreValidation.Upper | validation/core_validator.py:57 | on ASCII text, such as the server parameter name it is applied to, str.upper maps each lower-case letter to its capital and keeps every other character |
| CoreValidation.ConnectToExternalServer | validation/core_validator.py:49-72 | a missing URL raises the "not set in the config" error; otherwise the loop stops at the first healthy check, having slept 2, 7, 12, then 15 seconds per earlier failure |
| CoreValidation.TaskWeightValues | validation/core_validator.py:125-144 | each task's weight, 0 for a task the table leaves out |
| CoreValidation.TaskWeightsSumToOne | validation/core_validator.py:125-144 | the task weights sum to 1 over all tasks |
| CoreValidation.TaskWeightsPositive | validation/core_validator.py:125-144 | every weighted task weighs more than 0; exactly the legacy chat models and the playground tasks are unweighted |
| ImageChecks.DoNsfwChecks | validation/proxy/api_server/image/utils.py:24-26 | raises the 403 "NSFW content detected" exactly for a response flagged NSFW |
| ImageChecks.DoFormattedResponseImageChecks | validation/proxy/api_server/image/utils.py:29-34 | the NSFW check first; otherwise a 500 carrying the query's error message exactly when there is no response or no image |
| ImageChecks.ImageCheckCases | validation/proxy/api_server/image/utils.py:24-34 | case by case: an NSFW flag wins over a missing image, a missing response is a 500, and an unflagged image passes |
| ImageOperations.CopyFields | mining/proxy/operations/text_to_image_operation.py:23-25 | every output field is copied onto the request, and every other field keeps its value |
| ImageOperations.TextToImageForward | mining/proxy/operations/text_to_image_operation.py:21-27 | the logic sees the request as it was; its output is copied onto the same request object, which is returned |
| ImageOperations.InpaintForward | mining/proxy/operations/inpaint_operation.py:20-30 | the logic sees the original images; then both images are cleared and the output is copied over |
| ImageOperations.InpaintClearsImages | mining/proxy/operations/inpaint_operation.py:23-28 | after an inpaint both images are None unless the output supplies them, and no other field changes unless the output supplies it |
| ImageOperations.CopyIsIdempotent | mining/proxy/operations/text_to_image_operation.py:23-25 | copying the same output twice gives the same request as copying it once |
| Text.SpaceRunEnd | operation_logic/chat_logic.py:22 | the end of a whitespace run: only whitespace before it, a non-space at it |
| Text.Strip | operation_logic/chat_logic.py:22-25 | the result of str.strip neither starts nor ends with whitespace |
| Text.StripKeepsMiddle | operation_logic/chat_logic.py:22-25 | str.strip returns a middle section of the string with only whitespace before and after it; with Strip's own contract this is exactly the string with its outer whitespace removed |
| Text.StripEmptyIffAllSpace | operation_logic/chat_logic.py:22 | an event strips to "" exactly when it is all whitespace |
| Text.Find | operation_logic/chat_logic.py:20 | the first occurrence of the separator, or none at all |
| Text.SplitJoin | operation_logic/chat_logic.py:20 | splitting a chunk on "\n\n" loses nothing: joining the pieces gives the chunk back |
| Text.SplitPiecesFree | operation_logic/chat_logic.py:20 | no event of a split chunk contains the separator |
| Text.SplitAtFirstOccurrences | operation_logic/chat_logic.py:20 | each event ends at the first occurrence of "\n\n" in what is left of the chunk, and the last event holds none, so overlapping separators split as str.split does |
| Text.IndexOf | validation/core_validator.py:90-91 | the first position holding the value (the separator str.partition looks for, the hotkey list.index looks for), or none exactly when it is absent |
| Text.Partition | operation_logic/chat_logic.py:24 | the prefix, the separator and the rest rebuild the event; the prefix has no colon; without a colon, everything is the prefix |
| ChatLogic.LookupFindsLast | operation_logic/chat_logic.py:27-29 | a key lookup in a decoded object finds the last member with that key, and fails exactly when no member has it |
| ChatLogic.ExtractCases | operation_logic/chat_logic.py:28-29 | text and logprob are extracted exactly from an object with a "text" member and a non-empty "logprobs" list whose first item has a "logprob" |
| ChatLogic.ProcessEvent | operation_logic/chat_logic.py:21-32 | one event is skipped exactly when it is blank, and an emitted frame is a `data:` event ending in a blank line |
| ChatLogic.ProcessEventCases | operation_logic/chat_logic.py:21-32 | an event is skipped exactly when blank, ends the chunk exactly when its payload strips to [DONE], and is malformed exactly when the payload does not parse or lacks a field |
| ChatLogic.StreamFramesAppend | operation_logic/chat_logic.py:17-32 | frames are produced chunk by chunk: the frames of two runs of chunks are the frames of each, concatenated |
| ChatLogic.ChunkFramesAppend | operation_logic/chat_logic.py:21-32 | before the first [DONE] or parse error, events are processed one after another |
| ChatLogic.EndDropsRestOfChunk | operation_logic/chat_logic.py:25-33 | [DONE] or a malformed event drops the rest of its chunk |
| ChatLogic.BlankEventEmitsNothing | operation_logic/chat_logic.py:22-23 | a blank event emits nothing and does not end the chunk |
| ChatLogic.FieldNameIgnored | operation_logic/chat_logic.py:24 | only the text after the first colon matters: two events with the same payload are processed alike |
| ChatLogic.WorkerEventReshaped | operation_logic/chat_logic.py:27-32 | a worker event with a text and log-probabilities becomes the frame of the text and the first log-probability |
| ChatLogic.ExtractWorkerObject | operation_logic/chat_logic.py:28-29 | the worker's object yields its text and first log-probability |
| ChatLogic.FrameIsDataEvent | operation_logic/chat_logic.py:32 | each frame is one complete `data:` event ending in a blank line |
| ChatLogic.EmittedFrameIsDataEvent | operation_logic/chat_logic.py:30-32 | every frame an event emits is a complete data event |
| ChatLogic.ChunkFramesAreEvents | operation_logic/chat_logic.py:21-32 | every frame of a chunk is a complete data event |
| ChatLogic.FramesAreEvents | operation_logic/chat_logic.py:17-32 | every frame of the stream is a complete data event |
| ChatLogic.UndecodableChunkSkipped | operation_logic/chat_logic.py:17-34 | in the corrected stream, a chunk that does not decode contributes nothing and does not end the stream |
| ChatLogic.FirstChunkUndecodableRaises | operation_logic/chat_logic.py:19-34 | as written, a stream whose first chunk is not valid UTF-8 raises from the handler, with no frame and no decrement |
| ChatLogic.AsWrittenAgreesOtherwise | operation_logic/chat_logic.py:13-35 | when the first chunk decodes, the stream as written and the corrected stream agree |
| ChatLogic.MinerRequestsStats.constructor | operation_logic/chat_logic.py:35 | no concurrency group has been released yet |
| ChatLogic.MinerRequestsStats.DecrementConcurrencyGroupFromTask | operation_logic/chat_logic.py:35 | records the release of the task's concurrency group |
| ChatLogic.EmitChunk | operation_logic/chat_logic.py:21-32 | the loop over one chunk's events yields exactly that chunk's frames |
| ChatLogic.AsWrittenStream | operation_logic/chat_logic.py:13-35 | as written, the stream yields either every frame or none, and it finishes exactly when the response completed and the first chunk decodes |
| ChatLogic.StreamTextFromServerAsWritten | operation_logic/chat_logic.py:13-35 | the as-written generator yields the as-written stream's frames; it releases the task's concurrency group exactly when it does not raise |
| ChatLogic.StreamTextFromServer | operation_logic/chat_logic.py:13-35 | corrected: the generator logs and skips an undecodable chunk, yields the frames of every other chunk in order and stops at a broken connection; it releases the task's concurrency group exactly when the stream completes |
| ChatOperation.ChatForwardRoute | mining/proxy/operations/chat_operation.py:46-52 | llama-3.1-8b and llama-3.1-70b go to their own worker URLs and tasks; any other model raises NotImplementedError |
| ChatOperation.RoutedChatIsStreamed | mining/proxy/operations/chat_operation.py:46-53 | a routed chat request accounts to a streamed chat task, the one the classifier gives |
| ChatOperation.ResponseChannel.constructor | mining/proxy/operations/chat_operation.py:20 | nothing has been sent yet, to a client that takes the given number of messages, or stays |
| ChatOperation.ResponseChannel.Send | mining/proxy/operations/chat_operation.py:23-29 | send appends one message while the client is there, and raises, sending nothing, once it is gone |
| ChatOperation.BodyMessagesCarryTexts | mining/proxy/operations/chat_operation.py:22-29 | one body message per text, in order, each with more body to come |
| ChatOperation.SentMessagesShape | mining/proxy/operations/chat_operation.py:20-39 | every text is forwarded in order, and the closing empty message follows exactly when the generator is exhausted |
| ChatOperation.SendText | mining/proxy/operations/chat_operation.py:20-39 | _send_text sends the messages for the generator's texts and its end, and nothing else, up to the first send that raises; the generator is left suspended exactly when a send fails before every text has reached the client |
| ChatOperation.ChatResponse | mining/proxy/operations/chat_operation.py:53-56 | the response is all body messages, at most one more than the stream's frames, and only the last one can close the body |
| ChatOperation.ChatResponseForwardsStream | mining/proxy/operations/chat_operation.py:53-56 | when the first chunk decodes (or there is none), the client receives exactly the frames of the stream in order, each with more body to come, followed by the empty closing message exactly when the worker's response completed |
| ChatOperation.ChatResponseFirstChunkUndecodable | mining/proxy/operations/chat_operation.py:20-39 | when the first chunk does not decode, the stream raises before any frame; _send_text catches it, so the client receives nothing and the body is never closed |
| Base64.AsciiBytes | core/bittensor_overrides/synapse.py:85 | str.encode of an ASCII string is one byte per character |
| Base64.EncodeLength | core/bittensor_overrides/synapse.py:85 | base64 gives four characters per started group of three bytes |
| SynapseHeaders.SynapseClass.constructor | core/bittensor_overrides/synapse.py:12 | a class starts with no cached schema |
| SynapseHeaders.SynapseClass.GetCachedModelJsonSchema | core/bittensor_overrides/synapse.py:14-26 | returns the model's schema and caches it; the schema is computed once, and a call with a cached schema computes nothing |
| SynapseHeaders.SynapseClass.GetRequiredFields | core/bittensor_overrides/synapse.py:28-33 | the schema's "required" list, empty when it has none, read through the cache |
| SynapseHeaders.SchemaComputedOnce | core/bittensor_overrides/synapse.py:14-26 | however often the schema is asked for, it is computed at most once |
| SynapseHeaders.PrefixedKeysDistinct | core/bittensor_overrides/synapse.py:63-86 | keys made with the axon, dendrite and input-object prefixes never collide, and each prefix keeps keys apart |
| SynapseHeaders.InputObjectEncodingIsBase64 | core/bittensor_overrides/synapse.py:84-85 | the input-object value of each serialisable type is the base64 of the JSON of its empty instance; exactly the types with a JSON form have one |
| SynapseHeaders.NullEncoding | core/bittensor_overrides/synapse.py:84-85 | the base64 of "null" is "bnVsbA==" |
| SynapseHeaders.FalseEncoding | core/bittensor_overrides/synapse.py:84-85 | the base64 of "false" is "ZmFsc2U=" |
| SynapseHeaders.ZeroEncoding | core/bittensor_overrides/synapse.py:84-85 | the base64 of "0" is "MA==" |
| SynapseHeaders.ZeroPointZeroEncoding | core/bittensor_overrides/synapse.py:84-85 | the base64 of "0.0" is "MC4w" |
| SynapseHeaders.EmptyStringEncoding | core/bittensor_overrides/synapse.py:84-85 | the base64 of `""` is "IiI=" |
| SynapseHeaders.EmptyListEncoding | core/bittensor_overrides/synapse.py:84-85 | the base64 of "[]" is "W10=" |
| SynapseHeaders.EmptyDictEncoding | core/bittensor_overrides/synapse.py:84-85 | the base64 of "{}" is "e30=" |
| SynapseHeaders.BaseHeaders | core/bittensor_overrides/synapse.py:59-67 | the headers start with the name and the timeout, which the terminal entries never replace; without terminals they are all there is |
| SynapseHeaders.HeadersOf | core/bittensor_overrides/synapse.py:59-97 | a successful to_headers always carries the header size, the total size and the body hash it was given |
| SynapseHeaders.ToHeaders | core/bittensor_overrides/synapse.py:35-97 | to_headers reads the required fields through the schema cache and returns the headers of the instance, or the serialisation error |
| SynapseHeaders.AddPrefixedEntries | core/bittensor_overrides/synapse.py:63-68 | the update adds only prefixed keys, one per non-None item, and keeps every other header |
| SynapseHeaders.EncodeKeepsHeaders | core/bittensor_overrides/synapse.py:75-86 | the field loop never changes an existing header; it only adds input-object keys for required, non-None fields |
| SynapseHeaders.InputKeysArePrefixed | core/bittensor_overrides/synapse.py:86 | a key without the input-object prefix is never an input-object key |
| SynapseHeaders.RequiredFieldEncoded | core/bittensor_overrides/synapse.py:78-86 | a required, non-None field that is not yet a header gets the encoding of its type's empty value |
| SynapseHeaders.EncodeFailureCause | core/bittensor_overrides/synapse.py:81-90 | the loop fails only on a required, non-None field whose type has no JSON form, with that field's error |
| SynapseHeaders.UnserialisableFieldRaises | core/bittensor_overrides/synapse.py:81-90 | reaching a required, non-None field with no JSON form raises ValueError |
| SynapseHeaders.HeadersKeepBase | core/bittensor_overrides/synapse.py:60-95 | apart from the input-object keys and the size entries, the headers are the base headers: name, timeout and the terminal entries |
| SynapseHeaders.HeadersFixedEntries | core/bittensor_overrides/synapse.py:60-95 | name and timeout are never replaced, and the sizes and body hash are always present |
| SynapseHeaders.PrefixedEntry | core/bittensor_overrides/synapse.py:64-67 | with distinct item names, an item's entry is set exactly when its value is not None |
| SynapseHeaders.HeadersTerminalEntries | core/bittensor_overrides/synapse.py:63-68 | an axon or dendrite entry appears under its prefixed key exactly when its value is not None, rendered with str() |

## Left out

- Network, disk and process I/O is left out. This covers the health check's HTTP request, the metagraph sync, the dendrite queries, posting to the stats service and the database calls. The model takes their results as inputs, and a post is recorded in `posted`.
- asyncio scheduling and `threading_lock` are left out, because each modelled method runs to completion as one step.
- Logging and `bt.logging` configuration are left out, because they produce no state the core reads.
- Floats are mathematical reals. The model leaves out rounding, and the not-a-number of a zero total stake becomes `CoreValidation.StakeShare.NotANumber`.
- `np.log` is the parameter `ln`, and the Gumbel noise and randint's choice are inputs. The model leaves out random generation.
- `json.loads`, `json.dumps`, `str()`, UTF-8 decoding, `sys.getsizeof`, `get_total_size` and `body_hash` are parameters, because their implementations are library code. The one exception is `SynapseHeaders.DummyJson`: it fixes the `json.dumps` output of the seven empty values to_headers serialises.
- The task enumeration (`core/__init__`) is not part of this model. `Core.Task` lists every member the modelled files reference.
- The values of `ChatModels.llama_3_1_8b`, `ChatModels.llama_3_1_70b` and `EngineEnum.FLUX` are not in the source shown. The model assumes "llama-3-1-8b", "llama-3-1-70b" and "flux-schnell"; only their being distinct from the others matters.
- TASK_TO_MAX_CAPACITY, Scorer, UidManager, WeightSetter, SyntheticDataManager and the miner configuration are not part of this model. The maxima and the worker URLs are parameters.
- `run_vali` is left out past the point where the uid manager exists: scoring, uid records, weight setting and the sleep. This includes `_post_uid_records_to_tauvision`, which is defined twice with identical bodies and belongs to the scoring step.
- `previous_uid_infos`, `low_incentive_uids`, `task_id_to_work` and `results_store` are left out, because no modelled operation reads or writes them.
- Validator.CoreValidator.CorrectForMaxCapacities: reading `self.capacities_for_tasks[task]` on the defaultdict creates an empty entry for each task; the model does not create these empty entries.
- CapacityTables.PayloadOf: the posted list is modelled as a map by task and uid, so the order of the records in the list is not modelled.
- UtilityModels.ArgsortDescending: the order among equal scores that `np.argsort` and `torch.sort` use is not specified; in the model, equal scores are ranked by descending index (a later index goes in front of an earlier one with the same score).
- Validator.CoreValidator: the uid manager shares `capacities_for_tasks` with the validator in the source; the model does not represent that aliasing.
- The validator uid is a natural number, because list.index never gives a negative one.
- SynapseHeaders.BaseHeaders: `if self.axon` is modelled as the axon being present; pydantic models are always truthy.
- The pydantic compatibility shims, the clip-embeddings logic and the miner's blacklist and priority hooks are left out, because they are outside the request path modelled here.
- The generation logic of the text-to-image and inpaint operations is a parameter, because it lives outside the modelled operations.
- GetSynapse.GetSynapseFromBody: the pydantic constructor of the synapse class is a parameter, because its defaults, the fields it drops and its ValidationError depend on classes that are not part of this model; the seed is known to reach the synapse only for a constructor that keeps the seed it is given.
- CoreValidation.Upper: only ASCII letters are mapped; Python's str.upper also maps other letters ('é' to 'É', 'ß' to "SS"), which the ASCII parameter name never contains.
- Tasks.FindTaskConfig: the error carries the task rather than the message text, because the enumeration's string values are defined in `core/__init__`, which is not part of this model.
- ChatOperation.SendText: the closing of a suspended generator is not modelled. The event loop later closes it at its `yield`. GeneratorExit gets past `except Exception`, so the concurrency decrement after the loop in `stream_text_from_server` never runs. The model reports `suspended` but does not model that release being skipped.
- Validator.CoreValidator.constructor: a hotkey missing from the metagraph makes `__init__` raise, so no validator is built; the constructor requires a registered hotkey.
- Validator.CoreValidator.CorrectCapacitiesForMyStake: a zero total stake gives a share that is not a number, and the source multiplies every capacity by NaN. Real numbers cannot hold NaN, so the model leaves the table unchanged in that case.
- ChatOperation.ChatResponse: the response assumes a client that stays connected; SendText models a client that leaves. The worker request itself (`session.post`) is left out; the worker's response is the sequence of chunks and how it ends.

## Findings

| source | as written | input that shows it | evidently intended | confidence | as-written member | corrected member |
|---|---|---|---|---|---|---|
| operation_logic/chat_logic.py:19-34 | the handler's log message reads `chunk`, which is unbound when the very first chunk fails to decode, so the handler itself raises UnboundLocalError; the stream ends with no frames and without the concurrency decrement | a first chunk of the single byte 0xFF (not valid UTF-8) | log the chunk that failed and go on with the next one | not executed | ChatLogic.StreamTextFromServerAsWritten, ChatLogic.FirstChunkUndecodableRaises | ChatLogic.StreamTextFromServer, ChatLogic.UndecodableChunkSkipped |
