/** Values shared by the uploader's components: optional values, the
    exceptions the components throw and catch, calendar dates, and the
    entries of an insertion-ordered dictionary. */
module Common {

  /** A value that may be absent (a C# reference that may be null). */
  datatype Option<+T> = None | Some(value: T)

  /** The outcome of an operation that either returns a value or throws. */
  datatype Result<+T> = Success(value: T) | Failure(error: Exception)

  /** The exception classes that matter to the catch clauses of the job:
      FileNotFoundException, InvalidDataException, FileLoadException,
      ArgumentException (a duplicate dictionary key) and every other kind. */
  datatype ExceptionKind = FileNotFound | InvalidData | FileLoad | Argument | Other

  /** A thrown exception: its class and its Message. */
  datatype Exception = Exception(kind: ExceptionKind, message: string)

  /** A calendar date, as the Year, Month and Day of a DateTime. */
  datatype Date = Date(year: nat, month: nat, day: nat)

  /** One key/value pair of a Dictionary. A dictionary that is only ever
      added to enumerates its pairs in insertion order, so it is modelled
      as the sequence of its entries. */
  datatype Entry<V> = Entry(key: string, value: V)

  /** The key set of a dictionary. */
  function Keys<V>(d: seq<Entry<V>>): (ks: set<string>)
    ensures forall i :: 0 <= i < |d| ==> d[i].key in ks
    ensures forall k :: k in ks ==> exists i :: 0 <= i < |d| && d[i].key == k
  {
    set i | 0 <= i < |d| :: d[i].key
  }
}
