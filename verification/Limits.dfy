/** Sizes that several parts share. */
module Limits {
  const MAX_USER_PROCESSES := 8
}
