/**
 * The session rules of the chat component (src/components/ChatInterface.tsx):
 * loading the saved session with a welcome message for a first visit, the
 * daily-streak rule, the proficiency estimate, and sending a message.
 *
 * The component's state variables, `messagesRef.current`, the browser storage
 * and the debounce table together form a `Session`. Each handler is a
 * function from the session before to the session after, and the class
 * `ChatSession` performs the same steps in place. React's functional updates
 * are taken to run at once, as they do when no other update is queued; the
 * effect that saves the messages is the explicit step `Persist`, taken where
 * React re-renders. Clock readings, the day number of "today" and the reply
 * of `postJsonWithRetry` are inputs.
 */
module ChatInterface {
  import opened Types
  import opened Strings
  import opened AppConstants
  import opened LocalStorage
  import Sanitize
  import ChatRoute

  const WELCOME_TEXT: string := "Hello! 你好！I'm your English tutor. 我是你的英语老师。\n\nI'm here to help you improve your English! We can:\n- Practice daily conversation 日常对话练习\n- Work on grammar 语法练习\n- Improve pronunciation 发音改进\n- Learn new vocabulary 学习新词汇\n\nJust start talking in English, and I'll help you along the way! Don't worry about making mistakes - that's how we learn! 不用担心犯错，这是学习的方式！\n\nTry saying: \"Hi, I want to practice English!\" or start with any topic you like. 😊"

  const APOLOGY_TEXT: string := "Sorry, I encountered an error. Please try again. 抱歉，出现错误。请重试。"

  /** A message from the tutor: not the user's, tagged `normal`. */
  function TutorMessage(id: string, content: string, timestamp: int): (m: Message)
    ensures !m.isUser && m.messageType == Some(Normal) && m.content == content
    ensures m.id == id && m.timestamp == timestamp
  {
    Message(id, content, false, timestamp, Some(Normal), None, None, None)
  }

  /* ---------------------------------------------------------------------- */
  /* Proficiency estimate                                                    */
  /* ---------------------------------------------------------------------- */

  /** The user's own messages, in order. */
  function UserMessages(history: seq<Message>): (r: seq<Message>)
    ensures |r| <= |history|
    ensures forall i :: 0 <= i < |r| ==> r[i].isUser
    decreases |history|
  {
    if history == [] then []
    else (if history[0].isUser then [history[0]] else []) + UserMessages(history[1..])
  }

  /** Filtering distributes over concatenation. */
  lemma {:induction false} UserMessagesAppend(a: seq<Message>, b: seq<Message>)
    ensures UserMessages(a + b) == UserMessages(a) + UserMessages(b)
    decreases |a|
  {
    if a == [] {
      assert a + b == b;
    } else {
      assert (a + b)[0] == a[0] && (a + b)[1..] == a[1..] + b;
      UserMessagesAppend(a[1..], b);
    }
  }

  /** A filtered message is one of the history's, and every user message is kept. */
  lemma {:induction false} UserMessagesExact(history: seq<Message>, m: Message)
    ensures m in UserMessages(history) <==> m in history && m.isUser
    decreases |history|
  {
    if history != [] {
      UserMessagesExact(history[1..], m);
      assert history == [history[0]] + history[1..];
    }
  }

  /** `content.split(' ').length`: one more than the number of spaces. */
  function WordCount(s: string): (n: nat)
    ensures n >= 1
    ensures n == 1 <==> ' ' !in s
  {
    CountChar(s, ' ') + 1
  }

  function TotalChars(ms: seq<Message>): nat
    decreases |ms|
  {
    if ms == [] then 0 else |ms[0].content| + TotalChars(ms[1..])
  }

  function TotalWords(ms: seq<Message>): (n: nat)
    ensures n >= |ms|
    decreases |ms|
  {
    if ms == [] then 0 else WordCount(ms[0].content) + TotalWords(ms[1..])
  }

  /**
   * The first matching band, with `avg > k` written as `total > k * n`.
   * Returns the level and its confidence.
   */
  function Classify(words: int, chars: int, n: nat): (CEFRLevel, real)
  {
    if words > 15 * n && chars > 80 * n then (B2, 0.7)
    else if words > 10 * n && chars > 50 * n then (B1, 0.7)
    else if words > 7 * n && chars > 30 * n then (A2, 0.6)
    else (A1, 0.5)
  }

  /** Comparing a total with `k * n` is comparing the average with `k`. */
  lemma AverageExceeds(total: int, n: nat, k: int)
    requires n > 0
    ensures total as real / n as real > k as real <==> total > k * n
  {
    var avg := total as real / n as real;
    assert avg * n as real == total as real;
    assert (k * n) as real == k as real * n as real;
    if avg > k as real {
      assert avg * n as real > k as real * n as real;
    } else {
      assert avg * n as real <= k as real * n as real;
    }
  }

  /**
   * The bands written with the source's averages: B2 exactly when both
   * averages exceed 15 words and 80 characters; B1, A2 and A1 likewise
   * in order; never C1 or C2, with confidence 0.7, 0.7, 0.6 or 0.5.
   */
  lemma ClassifyBands(words: int, chars: int, n: nat)
    requires n > 0
    ensures var (level, confidence) := Classify(words, chars, n);
      var w, c := words as real / n as real, chars as real / n as real;
      (level == B2 <==> w > 15.0 && c > 80.0)
      && (level == B1 <==> !(w > 15.0 && c > 80.0) && w > 10.0 && c > 50.0)
      && (level == A2 <==> !(w > 15.0 && c > 80.0) && !(w > 10.0 && c > 50.0) && w > 7.0 && c > 30.0)
      && (level == A1 <==> !(w > 15.0 && c > 80.0) && !(w > 10.0 && c > 50.0) && !(w > 7.0 && c > 30.0))
      && level != C1 && level != C2
      && confidence == (if level == A2 then 0.6 else if level == A1 then 0.5 else 0.7)
  {
    AverageExceeds(words, n, 15);
    AverageExceeds(chars, n, 80);
    AverageExceeds(words, n, 10);
    AverageExceeds(chars, n, 50);
    AverageExceeds(words, n, 7);
    AverageExceeds(chars, n, 30);
  }

  /** Longer messages never give a lower level. */
  lemma ClassifyMonotone(w1: int, c1: int, w2: int, c2: int, n: nat)
    requires w1 <= w2 && c1 <= c2
    ensures Classify(w1, c1, n).0.Rank() <= Classify(w2, c2, n).0.Rank()
  {
  }

  /** `assessLevel(history)` at time `now`: `None` where it returns early. */
  function Assessment(history: seq<Message>, now: int): Option<UserLevel>
  {
    var users := UserMessages(history);
    if |users| < MIN_INTERACTIONS then None
    else
      var (level, confidence) := Classify(TotalWords(users), TotalChars(users), |users|);
      Some(UserLevel(level, confidence, [], [], now, 0.7, 0.6, 0.7, 0.6))
  }

  /**
   * Fewer than five user messages give no estimate; otherwise the estimate is
   * the band of the user messages' averages, dated `now`, never C1 or C2, with
   * no strengths or weaknesses and the fixed sub-scores 0.7, 0.6, 0.7, 0.6.
   */
  lemma AssessmentShape(history: seq<Message>, now: int)
    ensures Assessment(history, now).None? <==> |UserMessages(history)| < 5
    ensures Assessment(history, now).Some? ==>
      var l, users := Assessment(history, now).value, UserMessages(history);
      l.level == Classify(TotalWords(users), TotalChars(users), |users|).0
      && l.level != C1 && l.level != C2 && l.lastAssessed == now
      && l.strengths == [] && l.weaknesses == []
      && l.grammarScore == 0.7 && l.vocabularyScore == 0.6
      && l.fluencyScore == 0.7 && l.pronunciationScore == 0.6
  {
    var users := UserMessages(history);
    if |users| >= 5 {
      ClassifyBands(TotalWords(users), TotalChars(users), |users|);
    }
  }

  /** Only the user's messages count: the tutor's replies do not move the estimate. */
  lemma AssessmentIgnoresTutor(history: seq<Message>, reply: Message, now: int)
    requires !reply.isUser
    ensures Assessment(history + [reply], now) == Assessment(history, now)
  {
    UserMessagesAppend(history, [reply]);
    assert UserMessages([reply]) == [];
    assert UserMessages(history + [reply]) == UserMessages(history);
  }

  /* ---------------------------------------------------------------------- */
  /* Daily streak                                                            */
  /* ---------------------------------------------------------------------- */

  /**
   * The streak after practising on day `today`: unchanged on the same day,
   * one more the day after the last practice, and 1 after a gap or on a first
   * practice.
   */
  function NextStreak(streak: int, last: Option<int>, today: int): int
  {
    if last == Some(today) then streak
    else if last == Some(today - 1) then streak + 1
    else 1
  }

  /** The streak after practising on each of `days` in turn, with the day of the last practice. */
  function StreakAfter(streak: int, last: Option<int>, days: seq<int>): (int, Option<int>)
    decreases |days|
  {
    if days == [] then (streak, last)
    else StreakAfter(NextStreak(streak, last, days[0]), Some(days[0]), days[1..])
  }

  /** Practising on consecutive days adds one per day. */
  lemma {:induction false} ConsecutiveDaysCount(streak: int, days: seq<int>)
    requires |days| >= 1
    requires forall i :: 0 < i < |days| ==> days[i] == days[i - 1] + 1
    ensures StreakAfter(streak, Some(days[0] - 1), days) == (streak + |days|, Some(days[|days| - 1]))
    decreases |days|
  {
    if |days| > 1 {
      assert forall i :: 0 < i < |days[1..]| ==> days[1..][i] == days[1..][i - 1] + 1;
      ConsecutiveDaysCount(streak + 1, days[1..]);
    }
  }

  /** A first practice followed by consecutive days gives a streak of the number of days. */
  lemma FirstPracticeStreak(days: seq<int>)
    requires |days| >= 1
    requires forall i :: 0 < i < |days| ==> days[i] == days[i - 1] + 1
    ensures StreakAfter(0, None, days).0 == |days|
  {
    if |days| > 1 {
      assert forall i :: 0 < i < |days[1..]| ==> days[1..][i] == days[1..][i - 1] + 1;
      ConsecutiveDaysCount(1, days[1..]);
    }
  }

  /** Practising again on the same day changes nothing. */
  lemma StreakSameDayIdempotent(streak: int, last: Option<int>, today: int)
    ensures StreakAfter(streak, last, [today, today]) == StreakAfter(streak, last, [today])
  {
    assert [today, today][1..] == [today];
  }

  /* ---------------------------------------------------------------------- */
  /* Validation before sending                                               */
  /* ---------------------------------------------------------------------- */

  /**
   * The checks at the top of `sendMessage`: the text (the argument if it is
   * non-empty, else the trimmed input) must be non-empty, must pass
   * validation, and its sanitized form must have at most
   * `MAX_MESSAGE_LENGTH` characters. Returns the sanitized text.
   */
  function PrepareSend(messageText: Option<string>, input: string): (r: Option<string>)
    ensures var text := if messageText.Some? && messageText.value != [] then messageText.value else Trim(input);
      (r.None? <==>
        text == [] || Sanitize.ValidateAndSanitizeMessage(text).None?
        || |Sanitize.ValidateAndSanitizeMessage(text).value| > MAX_MESSAGE_LENGTH)
      && (r.Some? ==> r.value == Sanitize.ValidateAndSanitizeMessage(text).value)
    ensures r.Some? ==> 1 <= |r.value| <= MAX_MESSAGE_LENGTH && '<' !in r.value && '>' !in r.value
  {
    var text := if messageText.Some? && messageText.value != [] then messageText.value else Trim(input);
    if text == [] then None
    else
      match Sanitize.ValidateAndSanitizeMessage(text)
      case None => None
      case Some(sanitized) => if |sanitized| > MAX_MESSAGE_LENGTH then None else Some(sanitized)
  }

  /* ---------------------------------------------------------------------- */
  /* The session and its transitions                                         */
  /* ---------------------------------------------------------------------- */

  /** The component's state, `messagesRef.current`, the storage and the debounce table. */
  datatype Session = Session(
    messages: seq<Message>,
    messagesRef: seq<Message>,
    input: string,
    isLoading: bool,
    userLevel: Option<UserLevel>,
    dailyStreak: int,
    lastPracticeDate: Option<int>,
    practiceMode: string,
    items: Items,
    pending: map<string, PendingWrite>)

  /** A list of messages as the value stored under the messages key. */
  function MessagesValue(ms: seq<Message>): (v: Value)
    ensures v.ArrayValue? && |v.elements| == |ms|
    ensures forall i :: 0 <= i < |ms| ==> v.elements[i] == MessageValue(ms[i])
  {
    ArrayValue(seq(|ms|, i requires 0 <= i < |ms| => MessageValue(ms[i])))
  }

  /** The effect on `messages`: keep the last 150 and schedule a debounced save. */
  function Persist(s: Session): Session
  {
    if |s.messages| > 0 then
      var kept := TruncateMessages(s.messages, MAX_MESSAGES_STORED);
      s.(pending := s.pending[KEY_MESSAGES := PendingWrite(MessagesValue(kept), DEBOUNCE_DELAY)],
         messagesRef := kept)
    else s
  }

  /** `updateDailyStreak()` on day `today`, with its two writes. */
  function StreakUpdate(h: Host, s: Session, today: int): Session
  {
    if s.lastPracticeDate == Some(today) then s
    else
      var n := NextStreak(s.dailyStreak, s.lastPracticeDate, today);
      var items1 := SetItem(h, s.items, KEY_STREAK, NumberValue(n)).1;
      var items2 := SetItem(h, items1, KEY_LAST_PRACTICE, DayValue(today)).1;
      s.(dailyStreak := n, lastPracticeDate := Some(today), items := items2)
  }

  /** `assessLevel(history)` at time `now`, with its write. */
  function AssessUpdate(h: Host, s: Session, history: seq<Message>, now: int): Session
  {
    match Assessment(history, now)
    case None => s
    case Some(l) => s.(userLevel := Some(l), items := SetItem(h, s.items, KEY_LEVEL, LevelValue(l)).1)
  }

  /** `userLevel?.level` as the string the request carries. */
  function LevelName(l: Option<UserLevel>): Option<string>
  {
    match l
    case None => None
    case Some(u) =>
      Some(match u.level case A1 => "A1" case A2 => "A2" case B1 => "B1" case B2 => "B2" case C1 => "C1" case C2 => "C2")
  }

  /** The body posted to `/api/chat`. */
  function RequestBody(s: Session, sanitized: string): ChatRoute.ChatRequest
  {
    ChatRoute.ChatRequest(sanitized, Some(s.messagesRef), LevelName(s.userLevel), Some(s.practiceMode))
  }

  /** The user's message, stamped with `now`. */
  function UserMessage(sanitized: string, now: nat): Message
  {
    PlainMessage(NatToString(now), sanitized, true, now)
  }

  /** The tutor's message for the reply (`None` where `postJsonWithRetry` threw). */
  function ReplyMessage(reply: Option<string>, replyTime: nat): Message
  {
    TutorMessage(NatToString(replyTime + 1), match reply case Some(text) => text case None => APOLOGY_TEXT, replyTime)
  }

  /** The synchronous part of a valid `sendMessage`: the user's message is added and the streak updated. */
  function Submit(h: Host, s: Session, sanitized: string, now: nat, today: int): Session
  {
    var withUser := s.messages + [UserMessage(sanitized, now)];
    StreakUpdate(h, s.(messages := withUser, messagesRef := withUser, input := "", isLoading := true), today)
  }

  /**
   * The part after the request settles: the reply, or the apology where the
   * request threw, is added; only a reply updates `messagesRef` and may
   * trigger the estimate; loading ends and the messages are saved.
   */
  function Receive(h: Host, s: Session, reply: Option<string>, replyTime: nat): Session
  {
    var withReply := s.messages + [ReplyMessage(reply, replyTime)];
    var answered :=
      if reply.Some? then
        var s1 := s.(messages := withReply, messagesRef := withReply);
        if |UserMessages(withReply)| % 5 == 0 then AssessUpdate(h, s1, withReply, replyTime) else s1
      else s.(messages := withReply);
    Persist(answered.(isLoading := false))
  }

  /**
   * `sendMessage(messageText)` sent at time `now` on day `today`, whose
   * request came back at `replyTime` with `reply`: the body posted, if any,
   * and the session after the handler and the renders it causes.
   */
  function Send(h: Host, s: Session, messageText: Option<string>, now: nat, today: int,
                reply: Option<string>, replyTime: nat): (Option<ChatRoute.ChatRequest>, Session)
  {
    match PrepareSend(messageText, s.input)
    case None => (None, s)
    case Some(sanitized) =>
      var submitted := Submit(h, s, sanitized, now, today);
      (Some(RequestBody(submitted, sanitized)), Receive(h, Persist(submitted), reply, replyTime))
  }

  /* ---------------------------------------------------------------------- */
  /* What sending promises                                                   */
  /* ---------------------------------------------------------------------- */

  /** Saving the messages touches only the reference copy and the debounce table. */
  lemma PersistKeeps(s: Session)
    ensures var s' := Persist(s);
      s'.messages == s.messages && s'.input == s.input && s'.isLoading == s.isLoading
      && s'.userLevel == s.userLevel && s'.dailyStreak == s.dailyStreak
      && s'.lastPracticeDate == s.lastPracticeDate && s'.items == s.items
      && (|s.messages| > 0 ==>
            s'.messagesRef == TruncateMessages(s.messages, MAX_MESSAGES_STORED)
            && s'.pending == s.pending[KEY_MESSAGES := PendingWrite(MessagesValue(s'.messagesRef), DEBOUNCE_DELAY)])
      && (|s.messages| == 0 ==> s' == s)
  {
  }

  /**
   * Submitting appends the user's message, which `messagesRef` then equals,
   * clears the input, starts loading, moves the streak as `NextStreak` says
   * and records the day; the estimate is untouched.
   */
  lemma SubmitShape(h: Host, s: Session, sanitized: string, now: nat, today: int)
    ensures var s' := Submit(h, s, sanitized, now, today);
      s'.messages == s.messages + [UserMessage(sanitized, now)] && s'.messagesRef == s'.messages
      && s'.input == [] && s'.isLoading && s'.userLevel == s.userLevel
      && s'.dailyStreak == NextStreak(s.dailyStreak, s.lastPracticeDate, today)
      && s'.lastPracticeDate == Some(today)
  {
  }

  /**
   * Receiving appends one tutor message holding the reply or the apology,
   * ends loading, saves the last 150 messages, and re-estimates the level
   * exactly when a reply came and the number of user messages is a positive
   * multiple of five.
   */
  lemma ReceiveShape(h: Host, s: Session, reply: Option<string>, replyTime: nat)
    ensures var s', n := Receive(h, s, reply, replyTime), |UserMessages(s.messages)|;
      s'.messages == s.messages + [ReplyMessage(reply, replyTime)]
      && !s'.isLoading && s'.input == s.input
      && s'.dailyStreak == s.dailyStreak && s'.lastPracticeDate == s.lastPracticeDate
      && s'.messagesRef == TruncateMessages(s'.messages, MAX_MESSAGES_STORED)
      && KEY_MESSAGES in s'.pending && s'.pending[KEY_MESSAGES] == PendingWrite(MessagesValue(s'.messagesRef), DEBOUNCE_DELAY)
      && s'.userLevel ==
           (if reply.Some? && n % 5 == 0 && n >= 5 then Assessment(s'.messages, replyTime) else s.userLevel)
  {
    ReceiveLevel(h, s, reply, replyTime);
  }

  /** The part of `ReceiveShape` about the estimate. */
  lemma ReceiveLevel(h: Host, s: Session, reply: Option<string>, replyTime: nat)
    ensures var s', n := Receive(h, s, reply, replyTime), |UserMessages(s.messages)|;
      s'.messages == s.messages + [ReplyMessage(reply, replyTime)]
      && s'.userLevel ==
           (if reply.Some? && n % 5 == 0 && n >= 5 then Assessment(s'.messages, replyTime) else s.userLevel)
  {
    var withReply := s.messages + [ReplyMessage(reply, replyTime)];
    UserMessagesAppend(s.messages, [ReplyMessage(reply, replyTime)]);
    assert UserMessages([ReplyMessage(reply, replyTime)]) == [];
    assert UserMessages(withReply) == UserMessages(s.messages);
    AssessmentShape(withReply, replyTime);
  }

  /** An empty, invalid or too long message changes nothing and posts nothing. */
  lemma SendRejected(h: Host, s: Session, messageText: Option<string>, now: nat, today: int,
                     reply: Option<string>, replyTime: nat)
    requires PrepareSend(messageText, s.input).None?
    ensures Send(h, s, messageText, now, today, reply, replyTime) == (None, s)
  {
  }

  /**
   * A valid message appends exactly two messages: the user's, holding the
   * sanitized text, then the tutor's, holding the reply or the apology. The
   * input is cleared, loading is over, the streak has moved, and the saved
   * copy is the last 150.
   */
  lemma SendAppendsTwo(h: Host, s: Session, messageText: Option<string>, now: nat, today: int,
                       reply: Option<string>, replyTime: nat)
    requires PrepareSend(messageText, s.input).Some?
    ensures var sanitized, s' := PrepareSend(messageText, s.input).value, Send(h, s, messageText, now, today, reply, replyTime).1;
      var u, t := UserMessage(sanitized, now), ReplyMessage(reply, replyTime);
      s'.messages == s.messages + [u, t]
      && u.isUser && u.content == sanitized
      && !t.isUser && t.messageType == Some(Normal)
      && t.content == (if reply.Some? then reply.value else APOLOGY_TEXT)
      && s'.input == [] && !s'.isLoading
      && s'.dailyStreak == NextStreak(s.dailyStreak, s.lastPracticeDate, today)
      && s'.lastPracticeDate == Some(today)
      && s'.messagesRef == TruncateMessages(s'.messages, MAX_MESSAGES_STORED)
      && KEY_MESSAGES in s'.pending && s'.pending[KEY_MESSAGES] == PendingWrite(MessagesValue(s'.messagesRef), DEBOUNCE_DELAY)
  {
    SendStages(h, s, messageText, now, today, reply, replyTime);
    SubmitThenReceive(h, s, PrepareSend(messageText, s.input).value, now, today, reply, replyTime);
  }

  /** What the two stages of a send do to the session, for the sanitized text. */
  lemma SubmitThenReceive(h: Host, s: Session, sanitized: string, now: nat, today: int,
                          reply: Option<string>, replyTime: nat)
    ensures var s' := Receive(h, Persist(Submit(h, s, sanitized, now, today)), reply, replyTime);
      s'.messages == s.messages + [UserMessage(sanitized, now), ReplyMessage(reply, replyTime)]
      && s'.input == [] && !s'.isLoading
      && s'.dailyStreak == NextStreak(s.dailyStreak, s.lastPracticeDate, today)
      && s'.lastPracticeDate == Some(today)
      && s'.messagesRef == TruncateMessages(s'.messages, MAX_MESSAGES_STORED)
      && KEY_MESSAGES in s'.pending && s'.pending[KEY_MESSAGES] == PendingWrite(MessagesValue(s'.messagesRef), DEBOUNCE_DELAY)
  {
    var u, t := UserMessage(sanitized, now), ReplyMessage(reply, replyTime);
    var submitted := Submit(h, s, sanitized, now, today);
    SubmitShape(h, s, sanitized, now, today);
    PersistKeeps(submitted);
    ReceiveShape(h, Persist(submitted), reply, replyTime);
    assert s.messages + [u] + [t] == s.messages + [u, t];
  }

  /**
   * The level is re-estimated only after a reply arrived and only when the
   * number of user messages is then a multiple of five; it then becomes the
   * estimate of the whole conversation.
   */
  lemma SendAssessesEveryFifth(h: Host, s: Session, messageText: Option<string>, now: nat, today: int,
                               reply: Option<string>, replyTime: nat)
    requires PrepareSend(messageText, s.input).Some?
    ensures var sanitized, s' := PrepareSend(messageText, s.input).value, Send(h, s, messageText, now, today, reply, replyTime).1;
      var n := |UserMessages(s.messages)| + 1;
      (reply.None? || n % 5 != 0 ==> s'.userLevel == s.userLevel)
      && (reply.Some? && n % 5 == 0 ==>
            s'.userLevel == Assessment(s.messages + [UserMessage(sanitized, now), ReplyMessage(reply, replyTime)], replyTime))
  {
    var sanitized := PrepareSend(messageText, s.input).value;
    var submitted := Submit(h, s, sanitized, now, today);
    SendStages(h, s, messageText, now, today, reply, replyTime);
    SubmitShape(h, s, sanitized, now, today);
    PersistKeeps(submitted);
    ReceiveAfterUser(h, Persist(submitted), reply, replyTime, s.messages, UserMessage(sanitized, now));
  }

  /** `ReceiveShape` for a session whose last message is the user's. */
  lemma ReceiveAfterUser(h: Host, saved: Session, reply: Option<string>, replyTime: nat,
                         base: seq<Message>, user: Message)
    requires saved.messages == base + [user] && user.isUser
    ensures var s', n := Receive(h, saved, reply, replyTime), |UserMessages(base)| + 1;
      (reply.None? || n % 5 != 0 ==> s'.userLevel == saved.userLevel)
      && (reply.Some? && n % 5 == 0 ==>
            s'.userLevel == Assessment(base + [user, ReplyMessage(reply, replyTime)], replyTime))
  {
    UserCountGrows(base, user);
    ReceiveLevel(h, saved, reply, replyTime);
    assert base + [user] + [ReplyMessage(reply, replyTime)] == base + [user, ReplyMessage(reply, replyTime)];
  }

  /** One more user message counts once more. */
  lemma UserCountGrows(base: seq<Message>, user: Message)
    requires user.isUser
    ensures |UserMessages(base + [user])| == |UserMessages(base)| + 1
  {
    UserMessagesAppend(base, [user]);
    assert UserMessages([user]) == [user];
  }

  /** A valid send is the submit stage, the save, then the receive stage. */
  lemma SendStages(h: Host, s: Session, messageText: Option<string>, now: nat, today: int,
                   reply: Option<string>, replyTime: nat)
    requires PrepareSend(messageText, s.input).Some?
    ensures var sanitized := PrepareSend(messageText, s.input).value;
      Send(h, s, messageText, now, today, reply, replyTime).1
        == Receive(h, Persist(Submit(h, s, sanitized, now, today)), reply, replyTime)
  {
  }

  /**
   * The history posted already ends with the new message, and the route
   * appends it once more: the model sees the new message twice in a row.
   */
  lemma SentHistoryRepeatsMessage(h: Host, s: Session, messageText: Option<string>, now: nat, today: int,
                                  reply: Option<string>, replyTime: nat)
    requires PrepareSend(messageText, s.input).Some?
    ensures var sanitized, body := PrepareSend(messageText, s.input).value, Send(h, s, messageText, now, today, reply, replyTime).0;
      body.Some? && body.value.message == sanitized
      && body.value.messages == Some(s.messages + [UserMessage(sanitized, now)])
      && var c := ChatRoute.ModelConversation(body.value.messages.value, sanitized);
         |c| >= 2 && c[|c| - 2] == c[|c| - 1] == ChatRoute.ModelMessage(ChatRoute.User, sanitized)
  {
    var sanitized := PrepareSend(messageText, s.input).value;
    SubmitShape(h, s, sanitized, now, today);
    ChatRoute.ModelConversationShape(s.messages + [UserMessage(sanitized, now)], sanitized);
  }

  /* ---------------------------------------------------------------------- */
  /* Loading and clearing                                                    */
  /* ---------------------------------------------------------------------- */

  /** The saved messages: a non-empty array of messages, or nothing usable. */
  function SavedMessages(v: Value): (r: Option<seq<Message>>)
    ensures r.Some? ==> v.ArrayValue? && |r.value| == |v.elements| > 0
    ensures r.Some? ==> forall i :: 0 <= i < |r.value| ==> v.elements[i] == MessageValue(r.value[i])
  {
    if v.ArrayValue? && |v.elements| > 0 then AllMessages(v.elements) else None
  }

  /** The messages of a list of stored values, if every one of them is a message. */
  function AllMessages(vs: seq<Value>): (r: Option<seq<Message>>)
    ensures r.Some? <==> forall i :: 0 <= i < |vs| ==> vs[i].MessageValue?
    ensures r.Some? ==> |r.value| == |vs| && forall i :: 0 <= i < |vs| ==> vs[i] == MessageValue(r.value[i])
  {
    if vs == [] then Some([])
    else if !vs[0].MessageValue? then None
    else match AllMessages(vs[1..])
      case None => None
      case Some(rest) => Some([vs[0].message] + rest)
  }


  /** Saved messages read back as themselves; an empty list reads as nothing usable. */
  lemma SavedMessagesRoundTrip(ms: seq<Message>)
    ensures ms != [] ==> SavedMessages(MessagesValue(ms)) == Some(ms)
    ensures ms == [] ==> SavedMessages(MessagesValue(ms)) == None
  {
    if ms != [] {
      var r := SavedMessages(MessagesValue(ms));
      assert r.Some?;
      assert r.value == ms;
    }
  }

  /** The four reads of the mount effect, in order, with what each leaves in storage. */
  function ReadBack(h: Host, items: Items): (Value, Value, Value, Value, Items)
  {
    var (savedMessages, items1) := GetItem(h, items, KEY_MESSAGES, ArrayValue([]));
    var (savedLevel, items2) := GetItem(h, items1, KEY_LEVEL, NullValue);
    var (savedStreak, items3) := GetItem(h, items2, KEY_STREAK, NumberValue(0));
    var (savedLast, items4) := GetItem(h, items3, KEY_LAST_PRACTICE, NullValue);
    (savedMessages, savedLevel, savedStreak, savedLast, items4)
  }

  /** The welcome message for a first visit at time `now`. */
  function Welcome(now: nat): Message
  {
    TutorMessage(NatToString(now), WELCOME_TEXT, now)
  }

  /** The mount effect at time `now`, with the save of the messages that its render triggers. */
  function Load(h: Host, s: Session, now: nat): Session
  {
    var (savedMessages, savedLevel, savedStreak, savedLast, items4) := ReadBack(h, s.items);
    Persist(Restored(s.(items := items4), MessagesOrWelcome(savedMessages, now), savedLevel, savedStreak, savedLast))
  }

  /** The saved messages, or the welcome message alone when there are none. */
  function MessagesOrWelcome(savedMessages: Value, now: nat): (ms: seq<Message>)
    ensures |ms| >= 1
  {
    match SavedMessages(savedMessages) case Some(ms) => ms case None => [Welcome(now)]
  }

  /** The state set from what was read: the messages to show, the level, the streak and its day. */
  function Restored(s: Session, ms: seq<Message>, savedLevel: Value, savedStreak: Value, savedLast: Value): Session
  {
    s.(
      messages := ms,
      messagesRef := ms,
      userLevel := LevelRead(savedLevel, s.userLevel),
      dailyStreak := StreakRead(savedStreak),
      lastPracticeDate := DayRead(savedLast))
  }

  /** A saved level replaces the current one; anything else keeps it (`if (savedLevel) setUserLevel(savedLevel)`). */
  function LevelRead(v: Value, current: Option<UserLevel>): Option<UserLevel>
  {
    if v.LevelValue? then Some(v.level) else current
  }

  /** The saved streak, 0 when it is missing or not a number. */
  function StreakRead(v: Value): int
  {
    if v.NumberValue? then v.number else 0
  }

  /** The saved day of the last practice, if any. */
  function DayRead(v: Value): Option<int>
  {
    if v.DayValue? then Some(v.day) else None
  }


  /** A first visit, or one whose saved list is unusable, starts with the welcome message alone. */
  lemma LoadWelcomes(h: Host, s: Session, now: nat)
    requires SavedMessages(GetItem(h, s.items, KEY_MESSAGES, ArrayValue([])).0).None?
    ensures Load(h, s, now).messages == [Welcome(now)]
    ensures !Load(h, s, now).messages[0].isUser
    ensures Load(h, s, now).messages[0].content == WELCOME_TEXT
  {
  }

  /** After loading there is always at least one message, and the reference holds the last 150. */
  lemma LoadNeverEmpty(h: Host, s: Session, now: nat)
    ensures |Load(h, s, now).messages| >= 1
    ensures Load(h, s, now).messagesRef == TruncateMessages(Load(h, s, now).messages, MAX_MESSAGES_STORED)
  {
  }

  /** `clearChat()` once confirmed: the messages go and the app's keys are cleared. */
  function ClearChat(h: Host, s: Session): Session
  {
    s.(messages := [], messagesRef := [], items := ClearApp(h, s.items))
  }

  /* ---------------------------------------------------------------------- */
  /* The component                                                           */
  /* ---------------------------------------------------------------------- */

  class ChatSession {
    var messages: seq<Message>
    var messagesRef: seq<Message>
    var input: string
    var isLoading: bool
    var userLevel: Option<UserLevel>
    var dailyStreak: int
    var lastPracticeDate: Option<int>
    var practiceMode: string
    const storage: Storage
    const timers: DebounceTimers

    /** The component's first render: every state variable at its initial value. */
    constructor(storage: Storage, timers: DebounceTimers)
      ensures this.storage == storage && this.timers == timers
      ensures messages == [] && messagesRef == [] && input == [] && !isLoading
      ensures userLevel == None && dailyStreak == 0 && lastPracticeDate == None
      ensures practiceMode == MODE_FREE_TALK
    {
      this.storage := storage;
      this.timers := timers;
      messages, messagesRef, input, isLoading := [], [], [], false;
      userLevel, dailyStreak, lastPracticeDate := None, 0, None;
      practiceMode := MODE_FREE_TALK;
    }

    function State(): Session
      reads this, storage, timers
    {
      Session(messages, messagesRef, input, isLoading, userLevel, dailyStreak, lastPracticeDate,
        practiceMode, storage.items, timers.pending)
    }

    /** The effect that saves the messages after a render. */
    method PersistMessages()
      modifies this, timers
      ensures State() == Persist(old(State()))
    {
      if |messages| > 0 {
        var kept := TruncateMessages(messages, MAX_MESSAGES_STORED);
        timers.SetItemDebounced(KEY_MESSAGES, MessagesValue(kept), DEBOUNCE_DELAY);
        messagesRef := kept;
      }
    }

    /** `updateDailyStreak()` on day `today`. */
    method UpdateDailyStreak(today: int)
      modifies this, storage
      ensures State() == StreakUpdate(storage.host, old(State()), today)
    {
      if lastPracticeDate == Some(today) {
        return;
      }
      if lastPracticeDate == Some(today - 1) {
        dailyStreak := dailyStreak + 1;
      } else {
        dailyStreak := 1;
      }
      var _ := storage.SetItemSafe(KEY_STREAK, NumberValue(dailyStreak));
      lastPracticeDate := Some(today);
      var _ := storage.SetItemSafe(KEY_LAST_PRACTICE, DayValue(today));
    }

    /** `assessLevel(history)` at time `now`. */
    method AssessLevel(history: seq<Message>, now: int)
      modifies this, storage
      ensures State() == AssessUpdate(storage.host, old(State()), history, now)
    {
      var assessed := Assessment(history, now);
      if assessed.None? {
        return;
      }
      userLevel := assessed;
      var _ := storage.SetItemSafe(KEY_LEVEL, LevelValue(assessed.value));
    }

    /** The synchronous part of `sendMessage` for the sanitized text. */
    method SubmitMessage(sanitized: string, now: nat, today: int)
      modifies this, storage
      ensures State() == Submit(storage.host, old(State()), sanitized, now, today)
    {
      messages := messages + [UserMessage(sanitized, now)];
      messagesRef := messages;
      input := "";
      isLoading := true;
      UpdateDailyStreak(today);
    }

    /** The part of `sendMessage` after `postJsonWithRetry` settled with `reply`. */
    method ReceiveReply(reply: Option<string>, replyTime: nat)
      modifies this, storage, timers
      ensures State() == Receive(storage.host, old(State()), reply, replyTime)
    {
      messages := messages + [ReplyMessage(reply, replyTime)];
      if reply.Some? {
        messagesRef := messages;
        if |UserMessages(messagesRef)| % 5 == 0 {
          AssessLevel(messagesRef, replyTime);
        }
      }
      isLoading := false;
      PersistMessages();
    }

    /** `sendMessage(messageText)`; `reply` is what `postJsonWithRetry` gave (`None` where it threw). */
    method SendMessage(messageText: Option<string>, now: nat, today: int, reply: Option<string>, replyTime: nat)
      returns (posted: Option<ChatRoute.ChatRequest>)
      modifies this, storage, timers
      ensures (posted, State()) == Send(storage.host, old(State()), messageText, now, today, reply, replyTime)
    {
      var prepared := PrepareSend(messageText, input);
      if prepared.None? {
        return None;
      }
      SubmitMessage(prepared.value, now, today);
      posted := Some(RequestBody(State(), prepared.value));
      PersistMessages();
      ReceiveReply(reply, replyTime);
    }

    /** The four `getItemSafe` calls of the mount effect. */
    method ReadSaved() returns (savedMessages: Value, savedLevel: Value, savedStreak: Value, savedLast: Value)
      modifies storage
      ensures (savedMessages, savedLevel, savedStreak, savedLast, storage.items) == ReadBack(storage.host, old(storage.items))
    {
      savedMessages := storage.GetItemSafe(KEY_MESSAGES, ArrayValue([]));
      savedLevel := storage.GetItemSafe(KEY_LEVEL, NullValue);
      savedStreak := storage.GetItemSafe(KEY_STREAK, NumberValue(0));
      savedLast := storage.GetItemSafe(KEY_LAST_PRACTICE, NullValue);
    }

    /** The mount effect at time `now`. */
    method LoadSaved(now: nat)
      modifies this, storage, timers
      ensures State() == Load(storage.host, old(State()), now)
    {
      var savedMessages, savedLevel, savedStreak, savedLast := ReadSaved();
      Restore(MessagesOrWelcome(savedMessages, now), savedLevel, savedStreak, savedLast);
      PersistMessages();
    }

    /** The state updates of the mount effect, from the values read. */
    method Restore(ms: seq<Message>, savedLevel: Value, savedStreak: Value, savedLast: Value)
      modifies this
      ensures State() == Restored(old(State()), ms, savedLevel, savedStreak, savedLast)
    {
      messages := ms;
      messagesRef := messages;
      userLevel := LevelRead(savedLevel, userLevel);
      dailyStreak := StreakRead(savedStreak);
      lastPracticeDate := DayRead(savedLast);
    }


    /** `clearChat()` once the user confirmed. */
    method ClearChatConfirmed()
      modifies this, storage
      ensures State() == ClearChat(storage.host, old(State()))
    {
      messages := [];
      messagesRef := [];
      storage.ClearAppStorage();
    }
  }
}
