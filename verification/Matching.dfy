/** The verdict of an ignore matcher about a path. */
module Matching {

  datatype Match<+T> = NoMatch | Ignore(inner: T) | Whitelist(inner: T) {

    function Invert(): Match<T> {
      match this
      case NoMatch => NoMatch
      case Ignore(t) => Whitelist(t)
      case Whitelist(t) => Ignore(t)
    }

    function Map<U>(f: T -> U): Match<U> {
      match this
      case NoMatch => NoMatch
      case Ignore(t) => Ignore(f(t))
      case Whitelist(t) => Whitelist(f(t))
    }
  }

  // The first verdict if there is one, and else the second.
  function Or<T>(a: Match<T>, b: Match<T>): Match<T> {
    if a.NoMatch? then b else a
  }

  // The first verdict in a list.
  function FirstVerdict<T>(ms: seq<Match<T>>): Match<T> {
    if ms == [] then NoMatch else Or(ms[0], FirstVerdict(ms[1..]))
  }
}
