/**
 * The message and proficiency types of the tutor (src/types/index.ts).
 */
module Types {

  datatype Option<+T> = None | Some(value: T)

  /** The optional classification tag of a message. */
  datatype MessageType = Normal | Correction | Encouragement | Cultural | Grammar | Pronunciation

  /** One flagged mistake inside an assistant message. */
  datatype ErrorHighlight = ErrorHighlight(
    text: string,
    category: string,
    correction: string,
    explanation: string,
    chineseExplanation: string)

  /**
   * One turn of the conversation. The creation time is a number (milliseconds);
   * the identifier is the decimal text of a creation time.
   */
  datatype Message = Message(
    id: string,
    content: string,
    isUser: bool,
    timestamp: int,
    messageType: Option<MessageType>,
    suggestions: Option<seq<string>>,
    chineseExplanation: Option<string>,
    errorHighlights: Option<seq<ErrorHighlight>>)

  /** The six CEFR levels, lowest first. */
  datatype CEFRLevel = A1 | A2 | B1 | B2 | C1 | C2 {
    function Rank(): (r: nat)
      ensures r <= 5
    {
      match this
      case A1 => 0
      case A2 => 1
      case B1 => 2
      case B2 => 3
      case C1 => 4
      case C2 => 5
    }
  }

  /** The learner's estimated level; confidence and sub-scores lie in [0, 1]. */
  datatype UserLevel = UserLevel(
    level: CEFRLevel,
    confidence: real,
    strengths: seq<string>,
    weaknesses: seq<string>,
    lastAssessed: int,
    grammarScore: real,
    vocabularyScore: real,
    fluencyScore: real,
    pronunciationScore: real)

  /** A message with only the four required fields set. */
  function PlainMessage(id: string, content: string, isUser: bool, timestamp: int): Message
  {
    Message(id, content, isUser, timestamp, None, None, None, None)
  }
}
