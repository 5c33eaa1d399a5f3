/** Value types shared by every stage of the top-articles pipeline. */
module Records {

  /** Java's nullable result (`queue.poll()` returns null on an empty queue). */
  datatype Option<T> = None | Some(value: T)

  /** A page-view event as read from the PageViews topic (a generic Avro record). */
  datatype PageView = PageView(page: string, industry: string, flags: string)

  /** A time window [start, end), in milliseconds. */
  datatype Window = Window(start: int, end: int)

  /** A key paired with the window it was aggregated in (Kafka's `Windowed<K>`). */
  datatype Windowed<K> = Windowed(key: K, window: Window)

  /**
   * The page-view statistics record (schema pageviewstats) that is ranked per
   * industry. Records compare structurally, field by field, as Avro generic
   * records do. `count` is a Java `long`.
   */
  datatype ViewStats = ViewStats(page: string, industry: string, count: int)
}
