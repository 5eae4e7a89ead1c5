// security_limits.py: the length budgets of untrusted patterns and values.
module SecurityLimits {
  const MAX_PATTERN_LENGTH := 1000
  const MAX_REGEX_VALUE_LENGTH := 50_000
}
