/** core/tasks.py: which task a request belongs to, the per-task stream flag
    and request class, and the per-task scoring configuration. */
module Tasks {
  import opened Wrappers
  import opened Core
  import opened UtilityModels

  /** The request classes (synapses) the classifier distinguishes; any other
      class, whatever its name, is Other. Only the fields the classifier reads
      are kept. */
  datatype Request =
    | Chat(model: string)
    | TextToImage(engine: string)
    | ImageToImage(engine: string)
    | Inpaint
    | AvatarRequest
    | Other(className: string)

  datatype RequestClass = ChatClass | TextToImageClass | ImageToImageClass | InpaintClass | AvatarClass | OtherClass

  function ClassOf(r: Request): RequestClass {
    match r
    case Chat(_) => ChatClass
    case TextToImage(_) => TextToImageClass
    case ImageToImage(_) => ImageToImageClass
    case Inpaint => InpaintClass
    case AvatarRequest => AvatarClass
    case Other(_) => OtherClass
  }

  /** TASK_IS_STREAM. */
  const TaskIsStream: map<Task, bool> := map[
    ChatMixtral := true, ChatLlama3 := true, ChatLlama3_1_8b := true, ChatLlama3_1_70b := true,
    PlaygroundTextToImage := false, PlaygroundImageToImage := false,
    ProteusTextToImage := false, FluxSchnellTextToImage := false, DreamshaperTextToImage := false,
    ProteusImageToImage := false, FluxSchnellImageToImage := false, DreamshaperImageToImage := false,
    JuggerInpainting := false, Avatar := false
  ]

  /** TASKS_TO_SYNAPSE. */
  const TasksToSynapse: map<Task, RequestClass> := map[
    ChatMixtral := ChatClass, ChatLlama3 := ChatClass,
    PlaygroundTextToImage := TextToImageClass, PlaygroundImageToImage := ImageToImageClass,
    ChatLlama3_1_8b := ChatClass, ChatLlama3_1_70b := ChatClass,
    ProteusTextToImage := TextToImageClass, FluxSchnellTextToImage := TextToImageClass,
    DreamshaperTextToImage := TextToImageClass,
    ProteusImageToImage := ImageToImageClass, FluxSchnellImageToImage := ImageToImageClass,
    DreamshaperImageToImage := ImageToImageClass,
    JuggerInpainting := InpaintClass, Avatar := AvatarClass
  ]

  /** Both tables cover every task, and a task is streamed exactly when it is
      one of the four chat tasks. */
  lemma TablesAreTotal(t: Task)
    ensures t in TaskIsStream && t in TasksToSynapse
    ensures TaskIsStream[t] <==> t.IsChat()
    ensures TasksToSynapse[t] == ChatClass <==> t.IsChat()
  {
  }

  /** The chat task for a model name, None for an unrecognised one. */
  function ChatTask(model: string): Option<Task> {
    if model == ChatModelValue(Mixtral) then Some(ChatMixtral)
    else if model == ChatModelValue(Llama3) then Some(ChatLlama3)
    else if model == ChatModelValue(Llama3_1_8b) then Some(ChatLlama3_1_8b)
    else if model == ChatModelValue(Llama3_1_70b) then Some(ChatLlama3_1_70b)
    else None
  }

  function TextToImageTask(engine: string): Option<Task> {
    if engine == EngineValue(Proteus) then Some(ProteusTextToImage)
    else if engine == EngineValue(Playground) then Some(PlaygroundTextToImage)
    else if engine == EngineValue(Dreamshaper) then Some(DreamshaperTextToImage)
    else if engine == EngineValue(Flux) then Some(FluxSchnellTextToImage)
    else None
  }

  function ImageToImageTask(engine: string): Option<Task> {
    if engine == EngineValue(Proteus) then Some(ProteusImageToImage)
    else if engine == EngineValue(Playground) then Some(PlaygroundImageToImage)
    else if engine == EngineValue(Dreamshaper) then Some(DreamshaperImageToImage)
    else if engine == EngineValue(Flux) then Some(FluxSchnellImageToImage)
    else None
  }

  /** get_task_from_synapse. A recognised task always belongs to the request's
      own class; chat and image requests are recognised exactly when their model
      or engine is a member of the enumeration; Inpaint and Avatar requests are
      recognised whatever their fields; any other class is not. */
  function GetTaskFromSynapse(r: Request): (t: Option<Task>)
    ensures t.Some? ==> t.value in TasksToSynapse && TasksToSynapse[t.value] == ClassOf(r)
    ensures r.Chat? ==> (t.Some? <==> exists m: ChatModel :: r.model == ChatModelValue(m))
    ensures r.TextToImage? || r.ImageToImage? ==> (t.Some? <==> exists e: Engine :: r.engine == EngineValue(e))
    ensures r.Inpaint? ==> t == Some(JuggerInpainting)
    ensures r.AvatarRequest? ==> t == Some(Avatar)
    ensures r.Other? ==> t == None
  {
    match r
    case Chat(model) => ChatTask(model)
    case TextToImage(engine) => TextToImageTask(engine)
    case ImageToImage(engine) => ImageToImageTask(engine)
    case Inpaint => Some(JuggerInpainting)
    case AvatarRequest => Some(Avatar)
    case Other(_) => None
  }

  /** The canonical request for a task: its class, with the model or engine
      value that selects it. */
  function RequestForTask(t: Task): Request {
    match t
    case ChatMixtral => Chat(ChatModelValue(Mixtral))
    case ChatLlama3 => Chat(ChatModelValue(Llama3))
    case ChatLlama3_1_8b => Chat(ChatModelValue(Llama3_1_8b))
    case ChatLlama3_1_70b => Chat(ChatModelValue(Llama3_1_70b))
    case PlaygroundTextToImage => TextToImage(EngineValue(Playground))
    case PlaygroundImageToImage => ImageToImage(EngineValue(Playground))
    case ProteusTextToImage => TextToImage(EngineValue(Proteus))
    case FluxSchnellTextToImage => TextToImage(EngineValue(Flux))
    case DreamshaperTextToImage => TextToImage(EngineValue(Dreamshaper))
    case ProteusImageToImage => ImageToImage(EngineValue(Proteus))
    case FluxSchnellImageToImage => ImageToImage(EngineValue(Flux))
    case DreamshaperImageToImage => ImageToImage(EngineValue(Dreamshaper))
    case JuggerInpainting => Inpaint
    case Avatar => AvatarRequest
  }

  /** Every task is reachable: classification inverts RequestForTask. */
  lemma ClassificationIsOnto(t: Task)
    ensures GetTaskFromSynapse(RequestForTask(t)) == Some(t)
  {
  }

  /** The routing key of a request: its class plus the field the classifier
      reads. Inpaint and Avatar have none. */
  function RoutingKey(r: Request): (RequestClass, string) {
    match r
    case Chat(model) => (ChatClass, model)
    case TextToImage(engine) => (TextToImageClass, engine)
    case ImageToImage(engine) => (ImageToImageClass, engine)
    case Inpaint => (InpaintClass, "")
    case AvatarRequest => (AvatarClass, "")
    case Other(name) => (OtherClass, name)
  }

  /** Classification is injective on the routing key: two requests classified
      as the same task have the same class and the same model or engine (so a
      text-to-image and an image-to-image request never share a task). */
  lemma ClassificationIsInjective(r1: Request, r2: Request)
    requires GetTaskFromSynapse(r1).Some? && GetTaskFromSynapse(r1) == GetTaskFromSynapse(r2)
    ensures RoutingKey(r1) == RoutingKey(r2)
  {
    EnumValuesDistinct();
  }

  // ---------------------------------------------------------------------------
  // Task configurations

  datatype TaskType = Image | Text

  datatype TaskConfig = TaskConfig(task: Task, overhead: real, mean: real, variance: real, taskType: TaskType)

  /** TASK_CONFIGS, in source order. */
  const TaskConfigs: seq<TaskConfig> := [
    TaskConfig(ChatLlama3_1_70b, 0.3, 0.018, 130.0, Text),
    TaskConfig(ChatLlama3_1_8b, 0.2, 0.009, 200.0, Text),
    TaskConfig(ProteusImageToImage, 0.6, 0.24, 5.0, Image),
    TaskConfig(ProteusTextToImage, 0.25, 0.2, 7.0, Image),
    TaskConfig(FluxSchnellTextToImage, 0.4, 0.30, 7.0, Image),
    TaskConfig(FluxSchnellImageToImage, 0.6, 0.36, 5.0, Image),
    TaskConfig(Avatar, 0.5, 0.50, 4.0, Image),
    TaskConfig(DreamshaperTextToImage, 0.3, 0.22, 7.0, Image),
    TaskConfig(DreamshaperImageToImage, 0.6, 0.28, 5.0, Image),
    TaskConfig(JuggerInpainting, 0.4, 0.3, 4.0, Image)
  ]

  /** The first configuration in `configs` for `task`, or the ValueError the
      search raises when there is none. The error carries the task whose value
      the message names ("Task configuration for <value> not found"); the enum's
      string values are defined in the core package, which is not part of this
      model. */
  function FindTaskConfig(configs: seq<TaskConfig>, task: Task): (r: Result<TaskConfig, Task>)
    ensures r.Success? ==> r.value in configs && r.value.task == task
    ensures r.Success? ==> exists i :: 0 <= i < |configs| && configs[i] == r.value
                                        && forall j :: 0 <= j < i ==> configs[j].task != task
    ensures r.Failure? <==> forall c :: c in configs ==> c.task != task
    ensures r.Failure? ==> r.error == task
  {
    if configs == [] then Failure(task)
    else if configs[0].task == task then Success(configs[0])
    else
      var r := FindTaskConfig(configs[1..], task);
      assert forall c :: c in configs ==> c == configs[0] || c in configs[1..];
      if r.Success? then
        ghost var i :| 0 <= i < |configs[1..]| && configs[1..][i] == r.value
                       && forall j :: 0 <= j < i ==> configs[1..][j].task != task;
        assert configs[i + 1] == r.value;
        r
      else r
  }

  /** get_task_config. */
  function GetTaskConfig(task: Task): Result<TaskConfig, Task> {
    FindTaskConfig(TaskConfigs, task)
  }

  /** The tasks TASK_CONFIGS leaves out: the two legacy chat models and the
      two playground tasks. */
  predicate Unconfigured(t: Task) {
    t == ChatMixtral || t == ChatLlama3 || t == PlaygroundTextToImage || t == PlaygroundImageToImage
  }

  /** The tasks named in TASK_CONFIGS. */
  lemma ConfiguredTasks()
    ensures forall c :: c in TaskConfigs ==> !Unconfigured(c.task)
    ensures forall t: Task :: !Unconfigured(t) ==>
              exists i :: 0 <= i < |TaskConfigs| && TaskConfigs[i].task == t
  {
    forall t: Task | !Unconfigured(t)
      ensures exists i :: 0 <= i < |TaskConfigs| && TaskConfigs[i].task == t
    {
      var i := match t
        case ChatLlama3_1_70b => 0 case ChatLlama3_1_8b => 1 case ProteusImageToImage => 2
        case ProteusTextToImage => 3 case FluxSchnellTextToImage => 4 case FluxSchnellImageToImage => 5
        case Avatar => 6 case DreamshaperTextToImage => 7 case DreamshaperImageToImage => 8
        case _ => 9;
      assert TaskConfigs[i].task == t;
    }
  }

  /** The configured tasks are exactly the ten weighted ones: chat_mixtral,
      chat_llama_3 and the two playground tasks have no configuration, and
      every other task's configuration is found and is its own. */
  lemma GetTaskConfigCases(task: Task)
    ensures GetTaskConfig(task).Failure? <==> Unconfigured(task)
    ensures GetTaskConfig(task).Success? ==> GetTaskConfig(task).value.task == task
    ensures GetTaskConfig(task).Success? ==> (GetTaskConfig(task).value.taskType == Text <==> task.IsChat())
  {
    ConfiguredTasks();
    TaskConfigsWellFormed();
    var r := GetTaskConfig(task);
    if !Unconfigured(task) {
      var i :| 0 <= i < |TaskConfigs| && TaskConfigs[i].task == task;
      assert TaskConfigs[i] in TaskConfigs;
    }
    if r.Success? {
      var c := r.value;
      assert c in TaskConfigs;
      var k :| 0 <= k < |TaskConfigs| && TaskConfigs[k] == c;
    }
  }

  /** In TASK_CONFIGS each task appears at most once, and the Text type is used
      exactly for the chat tasks. */
  lemma TaskConfigsWellFormed()
    ensures forall i, j :: 0 <= i < j < |TaskConfigs| ==> TaskConfigs[i].task != TaskConfigs[j].task
    ensures forall i :: 0 <= i < |TaskConfigs| ==> (TaskConfigs[i].taskType == Text <==> TaskConfigs[i].task.IsChat())
  {
  }
}
