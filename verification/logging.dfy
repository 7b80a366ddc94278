/** The Maven `Log` the plugin writes to, as the sequence of entries it
    has received. */
module Logging {
  datatype Level = Info | Warn | Error

  datatype Entry = Entry(level: Level, text: string)

  /** `tail` is the last part of `entries`. */
  predicate LogEndsWith(entries: seq<Entry>, tail: seq<Entry>) {
    |tail| <= |entries| && entries[|entries| - |tail|..] == tail
  }

  class Log {
    var entries: seq<Entry>

    constructor ()
      ensures entries == []
    {
      entries := [];
    }

    method Info(text: string)
      modifies this
      ensures entries == old(entries) + [Entry(Level.Info, text)]
    {
      entries := entries + [Entry(Level.Info, text)];
    }

    method Warn(text: string)
      modifies this
      ensures entries == old(entries) + [Entry(Level.Warn, text)]
    {
      entries := entries + [Entry(Level.Warn, text)];
    }

    method Error(text: string)
      modifies this
      ensures entries == old(entries) + [Entry(Level.Error, text)]
    {
      entries := entries + [Entry(Level.Error, text)];
    }
  }
}
