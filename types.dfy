/** The records of the welding tracker (src/lib/types.ts), as immutable values. */
module Types {

  datatype Option<+T> = None | Some(value: T)

  /** Calendar dates are ISO `YYYY-MM-DD` strings; the calculations only compare them for equality. */
  type Date = string

  /** A time norm: hours of work per unit of an article. */
  datatype Rate = Rate(id: string, article: string, norm: real)

  /** A production target for one article; `completed` and `locked` are derived from the entries. */
  datatype PlanItem = PlanItem(
    id: string,
    article: string,
    target: real,
    completed: real,
    locked: bool,
    startDate: Date,
    completedDate: Option<Date>)

  /** One production entry: `quantity` units of `article` made on `date`. */
  datatype WCEntry = WCEntry(id: string, article: string, quantity: real, date: Date, updatedAt: int)

  /** A welder with their entries and the per-date overtime bookkeeping. */
  datatype Welder = Welder(
    id: string,
    lastName: string,
    entries: seq<WCEntry>,
    overtime: map<Date, real>,
    overtimeManual: map<Date, bool>)
}
