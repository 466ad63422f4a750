/**
 * The request side of the agent (bot/utils/agent_requests.py): the user's
 * chat history becomes the model input, a stored photo turning back into a
 * caption and an image; the usage of every raw response is summed; a text
 * request picks up the image the agent may have generated. The agent run,
 * the vector store creation, the files and Redis are inputs here: the run's
 * final output and raw responses, the ids new vector stores would get, the
 * image file's bytes and the `image_{id}` records.
 */
module AgentRequests {
  import opened Options
  import opened Strings
  import opened Tables
  import opened UserRepo
  import opened UtilsRepo
  import Base64
  import Utf8

  type Byte = Utf8.Byte

  /** The content of one input message: plain text, text with a stored image file, or text with an inline image. */
  datatype InputContent =
    | Text(text: string)
    | WithImageFile(caption: string, imagePath: string)
    | WithImageData(caption: string, base64: string)

  datatype InputItem = InputItem(role: string, content: InputContent)

  /** `f'image_{user.telegram_id}'`: the marker of a stored photo. */
  function ImageMarker(userId: int): string
  {
    "image_" + IntToString(userId)
  }

  /** The file a photo is saved to: `images/image_{id}_{uuid}.jpeg`. */
  function ImagePath(userId: int, uuid: string): string
  {
    "images/" + ImageMarker(userId) + "_" + uuid + ".jpeg"
  }

  /** What the photo handler stores in the history: `f'{image_path}|{caption}'`. */
  function PhotoContext(imagePath: string, caption: string): string
  {
    imagePath + "|" + caption
  }

  /**
   * One history row as model input: content without the user's image marker
   * goes as it is; content with it is read as `path|caption`, the caption
   * being the last '|' field and the file the first.
   */
  function MessageInput(m: ChatMessage, userId: int): (r: InputItem)
    ensures r.role == m.role
    ensures r.content.Text? <==> !Contains(m.content, ImageMarker(userId))
  {
    if !Contains(m.content, ImageMarker(userId)) then InputItem(m.role, Text(m.content))
    else
      var fields := Split(m.content, '|');
      InputItem(m.role, WithImageFile(fields[|fields| - 1], fields[0]))
  }

  /** The history mapped row by row, in order. */
  function HistoryInput(messages: seq<ChatMessage>, userId: int): (r: seq<InputItem>)
    ensures |r| == |messages|
    ensures forall i :: 0 <= i < |messages| ==> r[i] == MessageInput(messages[i], userId)
  {
    seq(|messages|, i requires 0 <= i < |messages| => MessageInput(messages[i], userId))
  }

  /** A text message without the marker reaches the model unchanged. */
  lemma PlainMessageUnchanged(m: ChatMessage, userId: int)
    requires !Contains(m.content, ImageMarker(userId))
    ensures MessageInput(m, userId) == InputItem(m.role, Text(m.content))
  {
  }

  /** The saved photo's path carries the marker that later marks its history row. */
  lemma ImagePathHasMarker(userId: int, uuid: string)
    ensures Contains(ImagePath(userId, uuid), ImageMarker(userId))
  {
    var path := ImagePath(userId, uuid);
    var marker := ImageMarker(userId);
    assert path[7..7 + |marker|] == marker;
    ContainsAt(path, marker, 7);
  }

  /** Neither the marker nor the rest of the saved photo's path holds '|'. */
  lemma ImagePathHasNoBar(userId: int, uuid: string)
    requires '|' !in uuid
    ensures '|' !in ImagePath(userId, uuid)
  {
    IntToStringChars(userId);
    var digits := IntToString(userId);
    assert '|' !in digits by {
      forall k | 0 <= k < |digits| ensures digits[k] != '|' { }
    }
  }

  /** A row with the marker is read as `path|caption`: the last '|' field and the first. */
  lemma MarkedRowInput(m: ChatMessage, userId: int)
    requires Contains(m.content, ImageMarker(userId))
    ensures MessageInput(m, userId) == InputItem(m.role, WithImageFile(LastField(m.content, '|'), Split(m.content, '|')[0]))
  {
  }

  /** A history row `path|caption` whose path carries the marker reads back as that caption and that file. */
  lemma StoredPhotoReadsBack(m: ChatMessage, userId: int, path: string, caption: string)
    requires Contains(path, ImageMarker(userId)) && '|' !in path && '|' !in caption
    requires m.content == PhotoContext(path, caption)
    ensures MessageInput(m, userId) == InputItem(m.role, WithImageFile(caption, path))
  {
    var rest := ['|'] + caption;
    assert m.content == path + rest;
    ContainsPrefix(path, rest, ImageMarker(userId));
    SplitPrefixField(path, rest, '|');
    SplitNoSeparator(path, '|');
    assert m.content == path + ['|'] + caption;
    LastFieldAfter(path, caption, '|');
    MarkedRowInput(m, userId);
  }

  /** The photo handler's `path|caption` row reads back as its caption and its file, as long as neither holds '|'. */
  lemma PhotoContextReadsBack(id: nat, userId: int, role: string, uuid: string, caption: string)
    requires '|' !in uuid && '|' !in caption
    ensures MessageInput(ChatMessage(id, userId, role, PhotoContext(ImagePath(userId, uuid), caption)), userId)
      == InputItem(role, WithImageFile(caption, ImagePath(userId, uuid)))
  {
    ImagePathHasMarker(userId, uuid);
    ImagePathHasNoBar(userId, uuid);
    StoredPhotoReadsBack(ChatMessage(id, userId, role, PhotoContext(ImagePath(userId, uuid), caption)), userId,
      ImagePath(userId, uuid), caption);
  }

  /** The row `path|head|tail` carries the path's marker; its first field is the path and its last the tail. */
  lemma BarFields(path: string, marker: string, head: string, tail: string)
    requires Contains(path, marker) && '|' !in path && '|' !in tail
    ensures Contains(PhotoContext(path, head + "|" + tail), marker)
    ensures Split(PhotoContext(path, head + "|" + tail), '|')[0] == path
    ensures LastField(PhotoContext(path, head + "|" + tail), '|') == tail
  {
    var caption := head + ['|'] + tail;
    assert PhotoContext(path, head + "|" + tail) == path + (['|'] + caption) == path + ['|'] + caption;
    ContainsPrefix(path, ['|'] + caption, marker);
    SplitAfterField(path, caption, '|');
    LastFieldSkipsField(path, caption, '|');
    LastFieldAfter(head, tail, '|');
  }

  /** A caption that holds '|' loses everything up to its last '|'. */
  lemma CaptionCutAtBar(m: ChatMessage, userId: int, path: string, head: string, tail: string)
    requires Contains(path, ImageMarker(userId)) && '|' !in path && '|' !in tail
    requires m.content == PhotoContext(path, head + "|" + tail)
    ensures MessageInput(m, userId) == InputItem(m.role, WithImageFile(tail, path))
  {
    BarFields(path, ImageMarker(userId), head, tail);
    MarkedRowInput(m, userId);
  }

  /** `caption if caption else '.'`. */
  function CaptionOrDot(caption: Option<string>): (s: string)
    ensures s != ""
    ensures caption.Some? && caption.value != "" ==> s == caption.value
  {
    if caption.Some? && caption.value != "" then caption.value else "."
  }

  /** The model input of `text_request`: the history, then the new text from the user. */
  function TextRequestInput(history: seq<ChatMessage>, userId: int, text: string): (r: seq<InputItem>)
    ensures |r| == |history| + 1
    ensures r[..|history|] == HistoryInput(history, userId)
    ensures r[|history|] == InputItem("user", Text(text))
  {
    HistoryInput(history, userId) + [InputItem("user", Text(text))]
  }

  /** The model input of `image_request`: the history, then the caption (or '.') with the photo inline, base64-encoded. */
  function ImageRequestInput(history: seq<ChatMessage>, userId: int, imageBytes: seq<Byte>, caption: Option<string>): (r: seq<InputItem>)
    ensures |r| == |history| + 1
    ensures r[..|history|] == HistoryInput(history, userId)
    ensures r[|history|].role == "user" && r[|history|].content.WithImageData?
    ensures Base64.Decode(r[|history|].content.base64) == Some(imageBytes)
  {
    Base64.DecodeEncode(imageBytes);
    HistoryInput(history, userId) + [InputItem("user", WithImageData(CaptionOrDot(caption), Base64.Encode(imageBytes)))]
  }

  /** The usage a raw response reports. */
  datatype Usage = Usage(inputTokens: nat, outputTokens: nat)

  /** What `Runner.run` gives back: the final output and the raw responses. */
  datatype AgentRun = AgentRun(finalOutput: string, rawResponses: seq<Usage>)

  function Sum(xs: seq<nat>): nat
  {
    if xs == [] then 0 else Sum(xs[..|xs| - 1]) + xs[|xs| - 1]
  }

  /** Summing a concatenation sums the parts. */
  lemma {:induction false} SumAppend(a: seq<nat>, b: seq<nat>)
    ensures Sum(a + b) == Sum(a) + Sum(b)
    decreases |b|
  {
    if b != [] {
      assert (a + b)[..|a + b| - 1] == a + b[..|b| - 1];
      SumAppend(a, b[..|b| - 1]);
    } else {
      assert a + b == a;
    }
  }

  /** No response's usage exceeds the total. */
  lemma {:induction false} SumBounds(xs: seq<nat>, i: int)
    requires 0 <= i < |xs|
    ensures xs[i] <= Sum(xs)
    decreases |xs|
  {
    if i < |xs| - 1 {
      SumBounds(xs[..|xs| - 1], i);
    }
  }

  function InputTokens(rs: seq<Usage>): (xs: seq<nat>)
    ensures |xs| == |rs| && forall i :: 0 <= i < |rs| ==> xs[i] == rs[i].inputTokens
  {
    seq(|rs|, i requires 0 <= i < |rs| => rs[i].inputTokens)
  }

  function OutputTokens(rs: seq<Usage>): (xs: seq<nat>)
    ensures |xs| == |rs| && forall i :: 0 <= i < |rs| ==> xs[i] == rs[i].outputTokens
  {
    seq(|rs|, i requires 0 <= i < |rs| => rs[i].outputTokens)
  }

  /** The loop over `runner.raw_responses`: the input and the output tokens of every response, added up. */
  method TotalTokens(responses: seq<Usage>) returns (inputTokens: nat, outputTokens: nat)
    ensures inputTokens == Sum(InputTokens(responses))
    ensures outputTokens == Sum(OutputTokens(responses))
  {
    inputTokens, outputTokens := 0, 0;
    for i := 0 to |responses|
      invariant inputTokens == Sum(InputTokens(responses)[..i])
      invariant outputTokens == Sum(OutputTokens(responses)[..i])
    {
      assert InputTokens(responses)[..i + 1] == InputTokens(responses)[..i] + [responses[i].inputTokens];
      assert OutputTokens(responses)[..i + 1] == OutputTokens(responses)[..i] + [responses[i].outputTokens];
      inputTokens := inputTokens + responses[i].inputTokens;
      outputTokens := outputTokens + responses[i].outputTokens;
    }
    assert InputTokens(responses)[..|responses|] == InputTokens(responses);
    assert OutputTokens(responses)[..|responses|] == OutputTokens(responses);
  }

  /**
   * `return_vectors`: the user's memory vector store and the shared knowledge
   * store, each created (with the id given) and recorded when it does not
   * exist yet.
   */
  method ReturnVectors(userRepo: UserRepository, utilsRepo: UtilsRepository, userId: int,
                       newMemoryId: string, newKnowledgeId: string)
    returns (memoryId: string, knowledgeId: string)
    requires userRepo.db == utilsRepo.db && userRepo.db.Valid()
    modifies userRepo.db
    ensures userRepo.db.Valid() && userRepo.db.OnlyChanged({MemoryVectors, KnowledgeVectors})
    ensures MemoryVector(userId, memoryId) in userRepo.db.memoryVectors
    ensures (forall v :: v in old(userRepo.db.memoryVectors) ==> v.userId != userId) ==>
      memoryId == newMemoryId && userRepo.db.memoryVectors == old(userRepo.db.memoryVectors) + [MemoryVector(userId, newMemoryId)]
    ensures (exists v :: v in old(userRepo.db.memoryVectors) && v.userId == userId) ==>
      MemoryVector(userId, memoryId) in old(userRepo.db.memoryVectors) && userRepo.db.memoryVectors == old(userRepo.db.memoryVectors)
    ensures old(userRepo.db.knowledgeVectors) == [] ==>
      knowledgeId == newKnowledgeId && userRepo.db.knowledgeVectors == [newKnowledgeId]
    ensures old(userRepo.db.knowledgeVectors) != [] ==>
      knowledgeId == old(userRepo.db.knowledgeVectors)[0] && userRepo.db.knowledgeVectors == old(userRepo.db.knowledgeVectors)
  {
    var memory := userRepo.GetMemoryVector(userId);
    if memory.None? {
      userRepo.AddMemoryVector(userId, newMemoryId);
      memoryId := newMemoryId;
    } else {
      memoryId := memory.value.vectorId;
    }
    var knowledge := utilsRepo.GetKnowledgeVectorStoreId();
    if knowledge.None? {
      utilsRepo.AddKnowledgeVectorStoreId(newKnowledgeId);
      knowledgeId := newKnowledgeId;
    } else {
      knowledgeId := knowledge.value;
    }
  }

  /**
   * The opening both requests share: the vector stores are looked up or
   * created, then the user's history is read.
   */
  method LoadHistory(userRepo: UserRepository, utilsRepo: UtilsRepository, userId: int,
                     newMemoryId: string, newKnowledgeId: string)
    returns (messages: seq<ChatMessage>)
    requires userRepo.db == utilsRepo.db && userRepo.db.Valid()
    modifies userRepo.db
    ensures userRepo.db.Valid() && userRepo.db.OnlyChanged({MemoryVectors, KnowledgeVectors})
    ensures messages == MessagesOf(old(userRepo.db.messages), userId)
  {
    var memoryId, knowledgeId := ReturnVectors(userRepo, utilsRepo, userId, newMemoryId, newKnowledgeId);
    messages := userRepo.GetMessags(userId);
  }

  /** The `image_{id}` record the image tool leaves in Redis: the file and its usage. */
  datatype ImageRecord = ImageRecord(image: string, inputTokens: nat, outputTokens: nat)

  /** The Redis keys `image_{id}`. */
  class ImageRecords {
    var records: map<int, ImageRecord>

    constructor ()
      ensures records == map[]
    {
      records := map[];
    }
  }

  /** The result of `text_request`. */
  datatype AnswerText = AnswerText(answer: string, imageBytes: Option<seq<Byte>>, inputTokens: nat,
                                   inputTokensImage: nat, outputTokens: nat, outputTokensImage: nat)

  /** The result of `image_request`. */
  datatype AnswerImage = AnswerImage(answer: string, inputTokens: nat, outputTokens: nat, imagePath: string)

  /**
   * `text_request`: the model is given the user's history and the new text;
   * the answer carries the run's final output and its summed usage. When the
   * agent left an image record, the record is deleted and the answer carries
   * the image file's bytes and the record's usage; otherwise no image and no
   * image tokens.
   */
  method TextRequest(userRepo: UserRepository, utilsRepo: UtilsRepository, images: ImageRecords, user: User,
                     text: string, newMemoryId: string, newKnowledgeId: string, run: AgentRun, imageFile: seq<Byte>)
    returns (input: seq<InputItem>, r: AnswerText)
    requires userRepo.db == utilsRepo.db && userRepo.db.Valid()
    modifies userRepo.db, images
    ensures userRepo.db.Valid() && userRepo.db.OnlyChanged({MemoryVectors, KnowledgeVectors})
    ensures input == TextRequestInput(MessagesOf(old(userRepo.db.messages), user.telegramId), user.telegramId, text)
    ensures r.answer == run.finalOutput
    ensures r.inputTokens == Sum(InputTokens(run.rawResponses)) && r.outputTokens == Sum(OutputTokens(run.rawResponses))
    ensures user.telegramId !in old(images.records) ==>
      r.imageBytes == None && r.inputTokensImage == 0 && r.outputTokensImage == 0 && images.records == old(images.records)
    ensures user.telegramId in old(images.records) ==>
      var record := old(images.records)[user.telegramId];
      r.imageBytes == Some(imageFile) && r.inputTokensImage == record.inputTokens
        && r.outputTokensImage == record.outputTokens && images.records == old(images.records) - {user.telegramId}
  {
    var messages := LoadHistory(userRepo, utilsRepo, user.telegramId, newMemoryId, newKnowledgeId);
    input := TextRequestInput(messages, user.telegramId, text);
    var inputTokens, outputTokens := TotalTokens(run.rawResponses);
    if user.telegramId in images.records {
      var record := images.records[user.telegramId];
      images.records := images.records - {user.telegramId};
      return input, AnswerText(run.finalOutput, Some(imageFile), inputTokens, record.inputTokens, outputTokens, record.outputTokens);
    }
    r := AnswerText(run.finalOutput, None, inputTokens, 0, outputTokens, 0);
  }

  /**
   * `image_request`: the photo is saved under a fresh uuid, the model is
   * given the history and the photo with its caption, and the answer carries
   * the summed usage and the path the photo was saved to.
   */
  method ImageRequest(userRepo: UserRepository, utilsRepo: UtilsRepository, user: User, imageBytes: seq<Byte>,
                      caption: Option<string>, uuid: string, newMemoryId: string, newKnowledgeId: string, run: AgentRun)
    returns (input: seq<InputItem>, r: AnswerImage)
    requires userRepo.db == utilsRepo.db && userRepo.db.Valid()
    modifies userRepo.db
    ensures userRepo.db.Valid() && userRepo.db.OnlyChanged({MemoryVectors, KnowledgeVectors})
    ensures input == ImageRequestInput(MessagesOf(old(userRepo.db.messages), user.telegramId), user.telegramId, imageBytes, caption)
    ensures r.answer == run.finalOutput && r.imagePath == ImagePath(user.telegramId, uuid)
    ensures r.inputTokens == Sum(InputTokens(run.rawResponses)) && r.outputTokens == Sum(OutputTokens(run.rawResponses))
    ensures Contains(r.imagePath, ImageMarker(user.telegramId))
  {
    var messages := LoadHistory(userRepo, utilsRepo, user.telegramId, newMemoryId, newKnowledgeId);
    var path := ImagePath(user.telegramId, uuid);
    input := ImageRequestInput(messages, user.telegramId, imageBytes, caption);
    var inputTokens, outputTokens := TotalTokens(run.rawResponses);
    ImagePathHasMarker(user.telegramId, uuid);
    r := AnswerImage(run.finalOutput, inputTokens, outputTokens, path);
  }
}
