/** The task enumeration of the subnet. Its defining module is not part of this
    model; the members are every one that the modelled files reference. */
module Core {

  datatype Task =
    | ChatMixtral
    | ChatLlama3
    | ChatLlama3_1_8b
    | ChatLlama3_1_70b
    | PlaygroundTextToImage
    | PlaygroundImageToImage
    | ProteusTextToImage
    | FluxSchnellTextToImage
    | DreamshaperTextToImage
    | ProteusImageToImage
    | FluxSchnellImageToImage
    | DreamshaperImageToImage
    | JuggerInpainting
    | Avatar
  {
    /** The four text-generation tasks, the only ones served as streams. */
    predicate IsChat() {
      ChatMixtral? || ChatLlama3? || ChatLlama3_1_8b? || ChatLlama3_1_70b?
    }
  }

  /** The members in declaration order: what `for task in Task` visits. */
  const AllTasks: seq<Task> := [
    ChatMixtral, ChatLlama3, ChatLlama3_1_8b, ChatLlama3_1_70b,
    PlaygroundTextToImage, PlaygroundImageToImage,
    ProteusTextToImage, FluxSchnellTextToImage, DreamshaperTextToImage,
    ProteusImageToImage, FluxSchnellImageToImage, DreamshaperImageToImage,
    JuggerInpainting, Avatar
  ]

  /** Iterating the enumeration visits every member, each exactly once. */
  lemma AllTasksComplete(t: Task)
    ensures t in AllTasks
    ensures forall i, j :: 0 <= i < j < |AllTasks| ==> AllTasks[i] != AllTasks[j]
  {
  }
}
