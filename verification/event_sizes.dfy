/** The fixed sizes of the event log, and the text that marks the end of its table. */
module EventSizes {
  const KEY_VALUE_SIZE := 128
  const MAX_EVENT_NAME_SIZE := 64
  const MAX_SEV_NAME_SIZE := 10
  const MAX_LOG_STR := 480
  const MAX_EVENT_TABLE_SIZE := 500
  const MAX_CATEGORIES_PER_DAEMON := 99
  const EVENT_NAME_DELIMITER_STR := "EV_TBD_TBD"
}
