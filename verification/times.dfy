/**
 * Wall-clock readings (`datetime.now()`, `applied_at`, `processed_at`). The
 * model never inspects them: they are passed in and stored as given.
 */
module Times {
  type Timestamp = string
}
