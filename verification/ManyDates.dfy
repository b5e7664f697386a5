/**
 Resolving many dates of one person, as a rebuild of all attendance does in no particular order
 (backend/app/attendance/resolver.py). The dates share the events, and neighbouring dates fetch and stamp the same ones.
 */
module ManyDates {
  import opened Basics
  import opened Attendance
  import opened Resolver

  /** The records of every date, and the person's events. */
  datatype Book = Book(records: map<int, Records>, events: seq<Event>)

  datatype Call = Call(date: int, asOf: Time)

  function RecordsOn(book: Book, date: int): Records {
    if date in book.records then book.records[date] else map[]
  }

  function ResolvedOne(envs: int -> Inputs, book: Book, call: Call): Book {
    var day := Resolved(envs(call.date), Day(RecordsOn(book, call.date), book.events), call.asOf);
    Book(book.records[call.date := day.records], day.events)
  }

  function ResolvedMany(envs: int -> Inputs, book: Book, calls: seq<Call>): Book {
    if calls == [] then book else ResolvedOne(envs, ResolvedMany(envs, book, calls[..|calls| - 1]), calls[|calls| - 1])
  }

  /** The times at which one date was called, in order. */
  function TimesOf(calls: seq<Call>, date: int): seq<Time> {
    if calls == [] then []
    else
      var rest, last := TimesOf(calls[..|calls| - 1], date), calls[|calls| - 1];
      if last.date == date then rest + [last.asOf] else rest
  }

  lemma {:induction false} OtherDatesStampsAreInvisible(envs: int -> Inputs, book: Book, calls: seq<Call>,
                                                        env: Inputs, records: Records, asOf: Time)
    ensures ResolvedRecords(env, records, ResolvedMany(envs, book, calls).events, asOf)
         == ResolvedRecords(env, records, book.events, asOf)
  {
    if calls != [] {
      var rest, last := calls[..|calls| - 1], calls[|calls| - 1];
      OtherDatesStampsAreInvisible(envs, book, rest, env, records, asOf);
      ResolvingIgnoresStamps(env, envs(last.date), records, ResolvedMany(envs, book, rest).events, asOf);
    }
  }

  /** What the calls leave on one date: what they found, or what one call at the date's own latest time leaves. */
  function ExpectedOn(envs: int -> Inputs, book: Book, calls: seq<Call>, date: int): Records {
    var times := TimesOf(calls, date);
    if times == [] then RecordsOn(book, date)
    else ResolvedRecords(envs(date), RecordsOn(book, date), book.events, Latest(times))
  }

  lemma LastCallOn(envs: int -> Inputs, book: Book, rest: seq<Call>, call: Call)
    requires RecordsOn(ResolvedMany(envs, book, rest), call.date) == ExpectedOn(envs, book, rest, call.date)
    ensures RecordsOn(ResolvedOne(envs, ResolvedMany(envs, book, rest), call), call.date)
         == ExpectedOn(envs, book, rest + [call], call.date)
  {
    var env, records, times := envs(call.date), RecordsOn(book, call.date), TimesOf(rest, call.date);
    assert (rest + [call])[..|rest|] == rest;
    OtherDatesStampsAreInvisible(envs, book, rest, env, ExpectedOn(envs, book, rest, call.date), call.asOf);
    if times != [] {
      RecordsOfTwoCalls(env, records, book.events, Latest(times), call.asOf);
      assert (times + [call.asOf])[..|times|] == times;
    }
  }

  /** Calls for any dates in any order leave each date's records as one call at that date's own latest time does. */
  lemma {:induction false} DatesDoNotInterfere(envs: int -> Inputs, book: Book, calls: seq<Call>, date: int)
    ensures RecordsOn(ResolvedMany(envs, book, calls), date) == ExpectedOn(envs, book, calls, date)
  {
    if calls != [] {
      var rest, last := calls[..|calls| - 1], calls[|calls| - 1];
      assert calls == rest + [last];
      DatesDoNotInterfere(envs, book, rest, date);
      if last.date == date {
        LastCallOn(envs, book, rest, last);
      }
    }
  }

  // The stamps themselves do depend on the order

  predicate EnvsAreDated(envs: int -> Inputs, calls: seq<Call>) {
    forall i | 0 <= i < |calls| :: envs(calls[i].date).businessDate == calls[i].date
  }

  /** The date of the last call that fetched the event. */
  function LastFetch(envs: int -> Inputs, calls: seq<Call>, e: Event): Option<int> {
    if calls == [] then None
    else if Fetched(envs(calls[|calls| - 1].date), e) then Some(calls[|calls| - 1].date)
    else LastFetch(envs, calls[..|calls| - 1], e)
  }

  /** An event ends with the business date of the last call that fetched it, and keeps its own if none did. */
  lemma {:induction false} LastFetchStamps(envs: int -> Inputs, book: Book, calls: seq<Call>, i: nat)
    requires i < |book.events| && EnvsAreDated(envs, calls)
    ensures var events, fetch := ResolvedMany(envs, book, calls).events, LastFetch(envs, calls, book.events[i]);
            && |events| == |book.events| && events[i].occurredAt == book.events[i].occurredAt
            && events[i].businessDate == if fetch.None? then book.events[i].businessDate else fetch
  {
    if calls != [] {
      var rest, last := calls[..|calls| - 1], calls[|calls| - 1];
      LastFetchStamps(envs, book, rest, i);
      var e := ResolvedMany(envs, book, rest).events[i];
      assert Fetched(envs(last.date), e) == Fetched(envs(last.date), book.events[i]);
    }
  }
}
