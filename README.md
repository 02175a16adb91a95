# agent-of-agreus smart agent, modelled in Dafny

This project models the core of the agent service `smart_agent`. The agent
answers questions about the 2025 Agreus/KPMG Global Family Office Compensation
Benchmark. The model covers these parts:

- **Skill loading.** The agent classifies a query against a catalog of
  reference files by keywords. It then loads `SKILL.md` and the matching
  references, with a fallback that loads every `.md` reference. It also
  builds the catalog summary.
- **Prompt handling.** The agent reads a YAML prompt file and substitutes
  `{{name}}` placeholders. It then cuts the system and user messages out of
  `<message role="…">` blocks and loads all skill content.
- **The agent call `llm`.** The prompt path is chosen by environment mode.
  The system prompt gets the skill content appended. The conversation
  history travels as a JSON text thread id and is normalised before sending.
  The answer is the text of the model's text blocks. The explanation comes
  from six topic groups, and the new thread id encodes the conversation so
  far.
- **Two two-tier stores.** Each store has a durable table plus an in-memory
  fallback that the code switches to when a table call raises. The thread
  store saves, reads and deletes conversation threads. The job store saves,
  reads, updates and deletes jobs.
- **The controllers and validators.** `abort` only acts on a job whose status
  is not finished. `get_status` builds the status reply. The other pieces are
  the input helpers (extraction, `format_output`, required inputs) and the
  `/execute`, `/abort` and `/status` request validators.
- **Lambda start-up configuration.** The handler reads SSM parameters, keyed
  by the upper-cased last segment of each path. It resolves names through an
  alias table and merges the values into the environment without
  overwriting what is already set.

## How the model is built

- **Data.** JSON values are a datatype: `null`, bools, integers, strings,
  lists and dicts as ordered field lists. `json.dumps` (with its
  `ensure_ascii` flag) and `json.loads` are written out in full. The module
  `JsonCodec` proves that decoding an encoding gives the value back. The
  `Files` module models the file system as a map from path to file text or
  directory listing.
- **Calls outside the model are parameters:** YAML loading, the Anthropic
  model call, the SSM paginator, the DynamoDB outcome of each call, fresh ids
  and clocks. A Python exception that escapes is `None` or `false`.
- **Form.** Code that loops (classification, loading, topic collection,
  the `llm` loops, the validators' scans, the SSM loops and the environment
  merge) is a method with loop invariants. Each such method is proved equal
  to a specification function, and the properties are lemmas about that
  function. The two stores are classes whose methods change their `backend`
  and `local` maps. Pure code is written as functions.
- **What `llm` and `extract_message` do:**
  - `llm` loads all skill content through `load_skill_content`
    (`base_agent.py:190-194`); the classifying `load_relevant_skills` is
    not called from it.
  - `llm` carries the whole history inside the thread id: the new id is
    the `create_thread_id` JSON of the messages (`base_agent.py:248`); the
    thread store is not called from it.
  - `extract_message` returns `''` when no block matches
    (`prompt_extract.py:63`).
- **`get_skill_dir`.** `base_agent.py:71-83` is the same search as
  `skill_loader.py:67-73`. Both are modelled by `SkillLoader.GetSkillDir`.
- **Job updates reach the status reply in one case only.**
  - `update_job_status` writes `status` and `result` beside the job's `data`.
  - `get_job` and `get_status` read only `data`, so an abort or any status
    update is not visible in `/status`.
  - The one exception is a successful update of an id the table lacks. The
    update creates an item without `data`, which a later successful read
    returns as `{}` where it returned `None` before.
  - `TempDb.UpdateKeepsJobData` and `StatusController.UpdateKeepsStatus`
    state this, exception included.

## Model

| member | source | states |
|---|---|---|
| SkillLoader.GetSkillDir | smart_agent/src/agent/skill_loader.py:67-73 | the first of `Skill`, `/var/task/Skill`, `/tmp/Skill` that exists, else `Skill` |
| Files.FirstExisting | smart_agent/src/agent/base_agent.py:64-68 | the loop returns the first candidate that exists, else the fallback; `Files.FirstFound` characterises that choice |
| SkillLoader.ClassifyQuery | smart_agent/src/agent/skill_loader.py:106-142 | the result has no duplicates and every name in it is a catalog file; a file is in it exactly when one of its keywords occurs in the lower-cased query |
| SkillLoader.ListOfSet | smart_agent/src/agent/skill_loader.py:142 | `list(set)` holds each member of the set exactly once |
| SkillLoader.ClassifyCaseInsensitive | smart_agent/src/agent/skill_loader.py:116 | classification depends only on the lower-cased query, and the comparison-word check changes nothing |
| SkillLoader.LoadOverview | smart_agent/src/agent/skill_loader.py:184-189 | level 1 contributes `# Skill Overview\n` plus the text of `SKILL.md` under the name `SKILL.md` when it exists, and nothing otherwise |
| SkillLoader.LoadReferences | smart_agent/src/agent/skill_loader.py:195-201 | the loop appends, in the order of the names, the text and the name of each reference it does not skip; the two lists grow by the same amount |
| SkillLoader.LoadLevel2 | smart_agent/src/agent/skill_loader.py:191-214 | level 2 loads the classified files, or, when the classification is empty and a fallback keyword occurs, every `.md` file in sorted order |
| SkillLoader.LoadRelevantSkills | smart_agent/src/agent/skill_loader.py:167-220 | the result is the parts joined by the separator `\n\n---\n\n` with the loaded names, for a classification of the query |
| SkillLoader.PiecesNames | smart_agent/src/agent/skill_loader.py:196-201 | the loaded names are exactly `references/` plus each name that was not skipped, in order |
| SkillLoader.KeptSorted | smart_agent/src/agent/skill_loader.py:209-210 | filtering a sorted listing keeps it sorted |
| SkillLoader.OverviewFirst | smart_agent/src/agent/skill_loader.py:185-189 | when `SKILL.md` exists, `SKILL.md` is the first loaded name and the combined content starts with its overview part |
| SkillLoader.NoOverviewOnlyReferences | smart_agent/src/agent/skill_loader.py:186-201 | without `SKILL.md` every loaded name is a `references/` name |
| SkillLoader.ClassifiedLoad | smart_agent/src/agent/skill_loader.py:195-201 | with a classification and a `references` directory, the loaded references are the classified files that exist, in classification order; a missing one is skipped without error |
| SkillLoader.FallbackLoad | smart_agent/src/agent/skill_loader.py:204-214 | when the fallback fires, the loaded references are exactly the `.md` names of the listing, each as often as it is listed, in sorted order |
| SkillLoader.KeptCount | smart_agent/src/agent/skill_loader.py:209-210 | the filter keeps every kept name as often as it occurs and drops every skipped one |
| SkillLoader.NoKeywordNoReferences | smart_agent/src/agent/skill_loader.py:204-206 | an unclassified query with no compensation or role keyword loads level 1 only |
| SkillLoader.SummaryLines | smart_agent/src/agent/skill_loader.py:234-237 | the summary lines are the header followed by exactly one line per catalog entry, in catalog order |
| SkillLoader.GetAvailableSkillsSummary | smart_agent/src/agent/skill_loader.py:223-239 | the loop builds those lines and joins them with newlines |
| Text.ReplaceCharacterised | smart_agent/src/agent/prompt_extract.py:35 | `str.replace` splits at every occurrence of the placeholder and joins with the replacement; no occurrence is left in any piece |
| PromptExtract.SubstituteOne | smart_agent/src/agent/prompt_extract.py:32-37 | every occurrence of `{{key}}` is replaced by the value, or by `''` for `None` |
| PromptExtract.SubstituteUntouched | smart_agent/src/agent/prompt_extract.py:32 | a prompt with no placeholder for the passed names is left unchanged |
| PromptExtract.SubstituteVariables | smart_agent/src/agent/prompt_extract.py:32-37 | the substitution loop gives the prompt with every passed variable substituted in order |
| PromptExtract.ExtractMessage | smart_agent/src/agent/prompt_extract.py:46-63 | the result is stripped and is the strip of a slice of the content; with the first opening tag at `i` and the first closing tag after it at `j` it is the stripped text between them; it is `''` when the opening tag is absent or no closing tag follows the first one |
| PromptExtract.Tagged | smart_agent/src/agent/prompt_extract.py:57-63 | the same for any pair of tags: the stripped text between the first `open` and the first `close` after it, `''` without such a pair |
| PromptExtract.BetweenAt | smart_agent/src/agent/prompt_extract.py:57-58 | with the first opening tag at `i` and the first closing tag after it at `j`, the match is the text between them (the non-greedy `.*?`) |
| PromptExtract.BetweenUnclosed | smart_agent/src/agent/prompt_extract.py:58-63 | when no closing tag follows the first opening tag there is no match |
| PromptExtract.TaggedBlock | smart_agent/src/agent/prompt_extract.py:57-61 | for `pre + open + body + close + post` with no `open` starting in `pre` and no `close` starting in `body`, the result is the stripped `body` |
| PromptExtract.ExtractBlock | smart_agent/src/agent/prompt_extract.py:57-61 | for `pre + <message role="r"> + body + </message> + post` with no opening tag of that role starting in `pre` (which may hold other blocks) and no closing tag starting in `body`, the message is the stripped `body` |
| PromptExtract.ExtractPrompts | smart_agent/src/agent/prompt_extract.py:6-43 | the loop substitutes each variable in order; the result is the system and user messages with the model parameters |
| PromptExtract.DefaultModelWhenAbsent | smart_agent/src/agent/prompt_extract.py:23-27 | without a `model` key the defaults name `claude-sonnet-4-20250514`, temperature 0.7 and max_tokens 4096 apply |
| PromptExtract.LoadSkillContent | smart_agent/src/agent/prompt_extract.py:66-95 | the content is the overview part, if any, then every `.md` reference in sorted order, joined by `\n\n---\n\n` |
| PromptExtract.LoadAllReferences | smart_agent/src/agent/prompt_extract.py:88-93 | the loop appends the texts of the `.md` files of the sorted listing |
| PromptExtract.SkillContentIsFallback | smart_agent/src/agent/prompt_extract.py:66-95 | the skill content equals the content `load_relevant_skills` gives when its fallback fires |
| BaseAgent.GetPromptFilePath | smart_agent/src/agent/base_agent.py:45-68 | in dev mode `/tmp/Prompt/f` wins when it exists; the result is always that path or one of the bundled candidates |
| BaseAgent.PromptPathBundled | smart_agent/src/agent/base_agent.py:57-68 | otherwise the first existing bundled candidate is chosen, and `Prompt/f` when none exists |
| BaseAgent.ParseThreadHistory | smart_agent/src/agent/base_agent.py:86-109 | a falsy id gives `[]`; a non-empty result is the decoded list of a string id; any string that decodes to a list gives that list |
| BaseAgent.ParsedWellFormed | smart_agent/src/agent/base_agent.py:103-105 | parsed messages are values with distinct dict keys |
| BaseAgent.CreateThreadId | smart_agent/src/agent/base_agent.py:112-122 | the thread id is the `json.dumps` text of the message list: it starts with `[` and ends with `]`, and is `[]` exactly for no messages |
| BaseAgent.ThreadRoundTrip | smart_agent/src/agent/base_agent.py:112-122 | parsing the thread id created from messages gives those messages back |
| JsonCodec.LoadsDumps | smart_agent/src/agent/base_agent.py:122 | `json.loads(json.dumps(v))` is `v` for every value with distinct dict keys, with or without `ensure_ascii` |
| JsonCodec.LoadsWellFormed | smart_agent/src/agent/base_agent.py:103 | every value `json.loads` produces has distinct dict keys |
| BaseAgent.ExtractReasoningSummary | smart_agent/src/agent/base_agent.py:125-162 | the method gives the summary function's value |
| BaseAgent.FindTopics | smart_agent/src/agent/base_agent.py:137-155 | the six checks collect the phrases of the groups with a term in the lower-cased text, in group order |
| BaseAgent.MatchedMembership | smart_agent/src/agent/base_agent.py:139-155 | a phrase is a topic exactly when its group has a term in the text |
| BaseAgent.MatchedInOrder | smart_agent/src/agent/base_agent.py:139-155 | the topics are the group phrases with some left out, in fixed order |
| BaseAgent.MatchedDistinct | smart_agent/src/agent/base_agent.py:139-155 | with distinct phrases, each topic appears at most once |
| BaseAgent.TopicsCharacterised | smart_agent/src/agent/base_agent.py:136-155 | each group's phrase appears at most once, in group order, exactly when one of its terms occurs in the lower-cased response |
| BaseAgent.NoResponseOnlyForEmpty | smart_agent/src/agent/base_agent.py:133-134 | the explanation is `No response generated.` exactly for the empty response |
| BaseAgent.SummaryCaseInsensitive | smart_agent/src/agent/base_agent.py:139 | upper or lower case in the response does not change the explanation |
| BaseAgent.Normalise | smart_agent/src/agent/base_agent.py:203-207 | the history is sent item by item as `{role, content}` with defaults `user` and `''`; a non-dict item raises |
| BaseAgent.NormaliseHistory | smart_agent/src/agent/base_agent.py:200-207 | the history loop gives that normalised history |
| BaseAgent.NormaliseIdempotent | smart_agent/src/agent/base_agent.py:203-207 | normalising a normalised history changes nothing |
| BaseAgent.CollectText | smart_agent/src/agent/base_agent.py:231-234 | the loop concatenates the texts of the text blocks, in order |
| BaseAgent.ResponseTextAppend | smart_agent/src/agent/base_agent.py:232-234 | the text of consecutive runs of blocks is the concatenation of their texts |
| BaseAgent.ResponseTextNoText | smart_agent/src/agent/base_agent.py:233 | blocks of other kinds add nothing |
| BaseAgent.RequestOf | smart_agent/src/agent/base_agent.py:222-228 | default model parameters give the default name and max_tokens; a model value that is not a dict raises |
| BaseAgent.BuildSystemPrompt | smart_agent/src/agent/base_agent.py:189-194 | non-empty skill content is appended after the reference-data header |
| BaseAgent.BuildRequest | smart_agent/src/agent/base_agent.py:181-228 | the request built before the model call |
| BaseAgent.Llm | smart_agent/src/agent/base_agent.py:165-252 | `llm` returns the specified answer, explanation and thread id, or raises |
| BaseAgent.LlmRequestMessages | smart_agent/src/agent/base_agent.py:200-213 | the model receives the normalised history followed by exactly one user turn with the payload |
| BaseAgent.LlmThread | smart_agent/src/agent/base_agent.py:231-248 | the new thread id decodes to the sent messages plus one assistant turn with the stripped text; the explanation is that text's summary |
| BaseAgent.ThreadContinues | smart_agent/src/agent/base_agent.py:197-213 | continuing from a created thread id sends the earlier messages and then the new user turn |
| BaseAgent.LlmThreadContinues | smart_agent/src/agent/base_agent.py:197-248 | the next call with the returned thread id sends the previous messages, the assistant turn and the new user turn |
| ThreadStorage.ThreadStore.GetThread | smart_agent/src/utils/thread_storage.py:45-80 | an empty id gives `[]`; a successful read gives the table's decoded value or `[]`; a failure gives the local copy or `[]`; nothing changes |
| ThreadStorage.ThreadStore.SaveThread | smart_agent/src/utils/thread_storage.py:83-125 | the id returned is the given one, or a fresh one when empty; success replaces the table item (count = number of messages, ttl 30 days) and leaves local alone; failure writes local only |
| ThreadStorage.ThreadStore.DeleteThread | smart_agent/src/utils/thread_storage.py:128-158 | true exactly for a non-empty id and a successful call, which removes the id from both tiers; otherwise nothing changes |
| ThreadStorage.SaveThenGet | smart_agent/src/utils/thread_storage.py:61-125 | with the same outcome for both calls, reading a saved thread gives the saved messages |
| ThreadStorage.SuccessShadowsFallback | smart_agent/src/utils/thread_storage.py:64-76 | a successful read ignores the local fallback, so a thread saved during a failure is not found once the table answers |
| ThreadStorage.DeleteThenGet | smart_agent/src/utils/thread_storage.py:141-150 | after a successful delete, every read gives `[]` |
| TempDb.JobStore.SaveJob | smart_agent/src/utils/temp_db.py:35-75 | always true; success puts the item with the encoded data and ttl 7 days; any failure writes the local record |
| TempDb.JobStore.GetJob | smart_agent/src/utils/temp_db.py:78-109 | a table hit gives the decoded data, a miss gives `None`; a failure or undecodable data gives the local data or `None` |
| TempDb.JobStore.UpdateJobStatus | smart_agent/src/utils/temp_db.py:112-160 | success sets status, updated_at and a truthy result on the item, creating it if missing; `ClientError` updates an existing local record only; another exception returns false and changes nothing |
| TempDb.JobStore.DeleteJob | smart_agent/src/utils/temp_db.py:163-187 | success removes the table item; `ClientError` removes the local record; another exception returns false and changes nothing |
| TempDb.SaveThenGetJob | smart_agent/src/utils/temp_db.py:46-109 | with the same outcome for both calls, reading a saved job gives its data |
| TempDb.UpdateKeepsJobData | smart_agent/src/utils/temp_db.py:127-155 | an update leaves what `get_job` returns unchanged in both tiers, except that upserting a missing id makes a successful read give `{}` |
| TempDb.DeleteThenGetJob | smart_agent/src/utils/temp_db.py:173-177 | after a successful delete a successful read finds nothing |
| StatusController.GetStatus | smart_agent/src/controllers/StatusController.py:15-53 | an empty id gives the 400 reply; no data gives `not_found`; a dict gives id, status (default `unknown`), result and created_at; the reply has an `error` field exactly in the error cases |
| StatusController.UpdateKeepsStatus | smart_agent/src/controllers/StatusController.py:41-46 | a status update leaves the status reply unchanged, except for the upserted item, which shows status `unknown` |
| AbortController.AbortReply | smart_agent/src/controllers/AbortController.py:26-71 | an abortable job gets the `aborted` reply; a finished one gets its current status; the reply has an `error` field exactly for an empty id or non-dict data |
| AbortController.Abort | smart_agent/src/controllers/AbortController.py:16-71 | only a found, unfinished job is updated, to `aborted` with the reason; otherwise nothing is written |
| AbortController.AbortNotVisibleInStatus | smart_agent/src/controllers/AbortController.py:53 | after an abort whose read succeeded, `/status` still shows the data's old status |
| AbortController.AbortedIsFinal | smart_agent/src/controllers/AbortController.py:45-50 | a job whose status is `aborted` cannot be aborted again |
| Helper.ExtractInputValue | smart_agent/src/utils/helper.py:21-40 | the data of the first input with the name (the default when it has no data), or the default when none has it |
| Helper.FormatOutput | smart_agent/src/utils/helper.py:43-63 | the dict `{name, type, data}` with exactly those three keys |
| Helper.FirstProblem | smart_agent/src/utils/helper.py:82-88 | the problem reported is that of the first failing field in order |
| Helper.ValidateRequiredInputs | smart_agent/src/utils/helper.py:66-90 | valid exactly when there is no message; the message is the first field's problem; an unhashable name raises |
| Helper.FieldProblemIff | smart_agent/src/utils/helper.py:83-88 | a field is fine exactly when some input has its name and the first such value is neither `None` nor blank |
| Helper.ValidIff | smart_agent/src/utils/helper.py:80-90 | the inputs validate exactly when every required field is fine |
| RequestValidator.ItemError | smart_agent/src/validator/request_validator.py:26-35 | an item passes exactly when it is a dict with a name, and a payload item has truthy data |
| RequestValidator.FirstItemError | smart_agent/src/validator/request_validator.py:25-35 | the error is that of the first failing item, in order |
| RequestValidator.ValidateExecuteRequest | smart_agent/src/validator/request_validator.py:8-40 | the scanning loop gives the specified verdict, including the non-list and missing-payload errors |
| RequestValidator.ExecuteValidIff | smart_agent/src/validator/request_validator.py:24-40 | a request is valid exactly when all items are named dicts, one is the payload, and every payload has truthy data |
| RequestValidator.NoInputsMissingPayload | smart_agent/src/validator/request_validator.py:18 | a request without `inputs` is reported as missing its payload |
| RequestValidator.ValidateAbortRequest | smart_agent/src/validator/request_validator.py:53-59 | an absent id gives `id is required`, a falsy one `id cannot be empty`; valid exactly for a truthy id |
| RequestValidator.ValidateStatusRequest | smart_agent/src/validator/request_validator.py:72-75 | valid exactly for a non-empty id |
| LambdaHandler.AliasesIn | smart_agent/lambda_handler.py:78 | `parameter_aliases.get(name, [])`: the aliases of the first entry with the name, or none |
| LambdaHandler.ResolveIn | smart_agent/lambda_handler.py:62-84 | a loaded canonical name wins; otherwise the first alias, upper-cased, that is loaded; otherwise `""` |
| LambdaHandler.ResolvedFromParameters | smart_agent/lambda_handler.py:74-84 | a resolved value is `""` or a loaded value |
| LambdaHandler.GetSsmParameters | smart_agent/lambda_handler.py:28-59 | the nested page loop stores each parameter under its key; `ClientError` gives `{}` |
| LambdaHandler.StorePagesFlat | smart_agent/lambda_handler.py:49-53 | page boundaries do not change the result |
| LambdaHandler.StoreAllKeys | smart_agent/lambda_handler.py:52-53 | a key is present exactly when some parameter's name maps to it |
| LambdaHandler.StoreAllLastWins | smart_agent/lambda_handler.py:52-53 | a later parameter with the same key overwrites an earlier one |
| LambdaHandler.SsmLastWins | smart_agent/lambda_handler.py:49-55 | each key holds the value of the last parameter with that key |
| LambdaHandler.MergeParameters | smart_agent/lambda_handler.py:100-103 | the loop's result is the merge over the canonical names |
| LambdaHandler.MergeNamesClosed | smart_agent/lambda_handler.py:100-103 | the merge keeps what was set and adds each unset name whose resolved value is non-empty |
| LambdaHandler.MergedKeepsAndFills | smart_agent/lambda_handler.py:100-107 | `load_config` never overwrites a set variable, never sets an empty value, only sets table names, and fills every unset table name that resolves |
| LambdaHandler.EnvironmentModeSet | smart_agent/lambda_handler.py:106-107 | `ENVIRONMENT_MODE` is always set afterwards, to `prod` unless it was set before or loaded |
| LambdaHandler.LoadConfig | smart_agent/lambda_handler.py:87-107 | reads the SSM path from `SSM_PREFIX` or `/app/{AGENT_NAME}/{ENVIRONMENT}`; the environment becomes the merge, or is untouched when a non-`ClientError` exception escapes |

## Left out

- Unicode case mapping: `lower()` and `upper()` are modelled for ASCII letters only.
- Floating point: the JSON model has integers only, and `temperature` is passed through untouched, so the 0.7 default is not represented as a number.
- Python set iteration order: `classify_query` may return the relevant files in any order.
- YAML parsing, the Anthropic client and `messages.create`, `uuid4`, `datetime.utcnow` and `os.environ` reads are parameters of the model.
- Logging, webhook delivery (`call_webhook_with_error` in `abort`), and the `base_agent` entry point, which only calls `llm`, sends webhooks and maps exceptions to status codes.
- The regex in `extract_message` is modelled as a literal search for the two tags; a role containing regex metacharacters would behave differently.
- `str(value)` of a non-string substitution value: variables are strings or `None`.
- `instructions` that are not strings.
- `get_anthropic_client`'s missing-API-key error is folded into the model call's failure.
- `parse_skill_metadata` and `load_skill_metadata`, which are not called by the modelled operations.
- `has_compensation_query` and `has_role_query` in `classify_query`, whose values are never used.
- `GetAvailableSkillsSummary` ignores its `skill_dir` argument, as the code does.
- The naive `datetime.utcnow().timestamp()` behind the ttl is taken to be the current POSIX time, `now`.
- The DynamoDB key attributes (`thread_id`, `id`) are the map keys, not item fields.
- Helper.ExtractInputValue: inputs are taken to be dicts, as the signature says; a non-dict input before the match, which would raise, is not modelled.
- JsonCodec.ParseUnicode: a `\u` escape of a lone surrogate is refused, because a Dafny `char` cannot hold a surrogate code point; `json.loads` keeps it as a lone code unit.
- ParseThreadHistory: a thread id whose JSON holds a lone-surrogate escape gives `[]`, where Python returns the decoded list (see JsonCodec.ParseUnicode).
- ThreadStorage.ThreadStore.SaveThread: the local fallback keeps a copy of the messages, while Python keeps a reference to the caller's list (`thread_storage.py:118`, `:124`), so a later change to that list is not seen by the model.
- FastAPI routing, CORS, the Mangum handler, `ExecuteController` and `DiscoverController` are not part of this model.
