/** The error event every handle publishes: a wrapper around a signed engine
    error code. Engine (libuv) error codes are negative; zero means "no error". */
module ErrorEvents {

  /** An error event carries the code it was constructed with. */
  datatype ErrorEvent = ErrorEvent(code: int)

  /** The engine's code for "address already in use" on Linux (-EADDRINUSE). */
  const EADDRINUSE: int := -98

  /** A value is an engine error code when it is negative. */
  predicate IsEngineCode(c: int) {
    c < 0
  }

  /** `translate`: maps a platform error number to the engine's code. Engine
      codes (and zero) pass through unchanged; a positive system errno is
      negated, which is how the engine numbers its codes on POSIX systems. */
  function Translate(sys: int): (r: int)
    ensures sys <= 0 ==> r == sys
    ensures sys > 0 ==> IsEngineCode(r) && -r == sys
    ensures r <= 0
  {
    if sys <= 0 then sys else -sys
  }

  /** `code()`: the code the event was built with. */
  function Code(e: ErrorEvent): (c: int)
    ensures ErrorEvent(c) == e
  {
    e.code
  }

  /** The explicit bool conversion: false exactly for the "no error" code 0,
      so every engine error code converts to true. */
  predicate IsError(e: ErrorEvent)
    ensures e.code == 0 ==> !IsError(e)
    ensures IsEngineCode(e.code) ==> IsError(e)
  {
    e.code != 0
  }

  /** `name()` / `what()`: the engine looks the code up in its own table and
      falls back to a generic text; `table` stands for that table. The result
      is never empty (the library only promises that it is present). */
  function Describe(table: map<int, string>, e: ErrorEvent): (s: string)
    requires forall c <- table :: table[c] != []
    ensures s != []
    ensures e.code in table ==> s == table[e.code]
  {
    if e.code in table then table[e.code] else "unknown error"
  }

  /** Translating is stable (a second translation changes nothing), and the
      event built from a translated number is an error exactly when the
      number was nonzero. */
  lemma TranslateThenConvert(sys: int)
    ensures Translate(Translate(sys)) == Translate(sys)
    ensures IsError(ErrorEvent(Translate(sys))) <==> sys != 0
  {
  }

  /** The assertions of the ErrorEvent test, on the "address in use" code.
      `what()` and `name()` are two separate engine lookups, so each has its
      own table and its own observation. */
  method Functionalities(whatTable: map<int, string>, nameTable: map<int, string>)
    returns (translated: int, code: int, what: string, name: string, falseForZero: bool, trueForCode: bool)
    requires forall c <- whatTable :: whatTable[c] != []
    requires forall c <- nameTable :: nameTable[c] != []
    ensures translated == EADDRINUSE && code == EADDRINUSE
    ensures what != [] && name != []
    ensures !falseForZero && trueForCode
  {
    var event := ErrorEvent(EADDRINUSE);
    translated := Translate(EADDRINUSE);
    what := Describe(whatTable, event);
    name := Describe(nameTable, event);
    code := Code(event);
    falseForZero := IsError(ErrorEvent(0));
    trueForCode := IsError(event);
  }
}
