/**
 * Application-wide configuration constants of the chat tutor
 * (src/constants/app.ts). Only the values the modelled core reads appear here.
 */
module AppConstants {

  // API configuration
  const MAX_TOKENS: int := 1200
  const MODEL: string := "claude-sonnet-4-20250514"
  const MAX_HISTORY_MESSAGES: int := 25
  const RETRY_ATTEMPTS: int := 3
  const RETRY_INITIAL_DELAY: int := 1000
  const RETRYABLE_STATUS_CODES: seq<int> := [408, 429, 500, 502, 503, 504]

  // Rate limiting
  const WINDOW_MS: int := 60000
  const MAX_REQUESTS: int := 30

  // Input validation
  const MAX_MESSAGE_LENGTH: int := 1000
  const MIN_MESSAGE_LENGTH: int := 1

  // Storage configuration
  const MAX_MESSAGES_STORED: int := 150
  const QUOTA_MB: int := 10
  const DEBOUNCE_DELAY: int := 800

  // Level assessment
  const MIN_INTERACTIONS: int := 5

  // Local storage keys
  const KEY_MESSAGES: string := "english-tutor-messages"
  const KEY_VOCABULARY: string := "english-tutor-vocabulary"
  const KEY_LEVEL: string := "english-tutor-level"
  const KEY_STREAK: string := "english-tutor-streak"
  const KEY_LAST_PRACTICE: string := "english-tutor-last-practice"
  const KEY_TOPICS: string := "english-tutor-topics"
  const KEY_WEAK_AREAS: string := "english-tutor-weak-areas"
  const KEY_MASTERED_PATTERNS: string := "english-tutor-mastered"

  // Practice modes
  const MODE_FREE_TALK: string := "free_talk"
}
