/**
  Time as the point-of-sale component uses it. The component stamps products and sales
  with `new Date().toISOString()` and later reads two things back from a stamp: its
  calendar day (`toDateString()`, to pick today's sales) and its local time of day
  (`toLocaleTimeString()`, for the CSV report). The host clock and locale are outside
  the model, so a stamp is kept as exactly those two readings.
 */
module Clock {
  datatype Timestamp = Timestamp(day: int, timeOfDay: string)
}
