/**
 * The recorder's environment: HTTP responses, the clock, `sleep` and the
 * files written. The transport and the clock are oracles fixed up front;
 * sleeps and file writes are recorded in ghost logs.
 */
module Io {

  newtype byte = b: int | 0 <= b < 256

  /** A successful `client.get`: the body bytes and their decoded text. */
  datatype Response = Response(content: seq<byte>, text: string)

  /** One GET either returns a response or raises `httpx.HTTPError`. */
  datatype HttpOutcome = Success(response: Response) | HttpError

  /**
   * The exceptions that end a call: `NoResponse` is the AttributeError
   * raised when `_try_request` gave up and returned None; `EmptyContent` is
   * the AttributeError raised when `_request` returned None for an empty
   * body; `BadTargetDuration` is the ValueError of `float(...)` on the
   * TARGETDURATION tag.
   */
  datatype Error = NoResponse | EmptyContent | BadTargetDuration(value: string)

  datatype Result<T> = Ok(value: T) | Err(error: Error)

  /** One `open(fp, 'wb').write(content)`. */
  datatype File = File(name: string, data: seq<byte>)

  /** The outcomes of successive attempts at `u`, the first being GET number `base`. */
  function Ask(net: (nat, string) -> HttpOutcome, base: nat, u: string): nat -> HttpOutcome
  {
    (i: nat) => net(base + i, u)
  }

  /** `k` copies of `u`. */
  function Repeat(u: string, k: nat): seq<string>
  {
    seq(k, _ => u)
  }

  lemma RepeatSnoc(u: string, k: nat)
    ensures Repeat(u, k) + [u] == Repeat(u, k + 1)
  {
  }

  class World {
    /** The value of the i-th reading of `datetime.now()`, in seconds. */
    const clock: nat -> real
    /** The outcome of the i-th GET issued, given its URL. */
    const net: (nat, string) -> HttpOutcome
    /** Clock readings taken so far. */
    var readings: nat
    /** URLs requested so far, in order. */
    var requests: seq<string>
    /** Durations passed to `sleep`, in order. */
    ghost var sleeps: seq<real>
    /** Files written, in order. */
    ghost var files: seq<File>

    constructor (clock: nat -> real, net: (nat, string) -> HttpOutcome)
      ensures this.clock == clock && this.net == net
      ensures readings == 0 && requests == [] && sleeps == [] && files == []
    {
      this.clock := clock;
      this.net := net;
      readings := 0;
      requests := [];
      sleeps := [];
      files := [];
    }

    /** The value of the i-th clock reading. */
    function Time(i: nat): real
    {
      clock(i)
    }

    /** The clock never goes backwards. */
    ghost predicate Monotone()
    {
      forall i: nat, j: nat :: i <= j ==> Time(i) <= Time(j)
    }

    /** Some clock reading from index `from` on is at least `t`. */
    ghost predicate EventuallyAtLeast(t: real, from: nat)
    {
      exists i: nat :: from <= i && Time(i) >= t
    }

    /**
     * A wait for `start` that begins with reading `j` ends: reading `j` is
     * already past `end`, or some later reading reaches `start`.
     */
    ghost predicate WaitEnds(start: real, end: real, j: nat)
    {
      Time(j) > end || EventuallyAtLeast(start, j + 1)
    }

    /** `datetime.now()`. */
    method Now() returns (t: real)
      modifies this`readings
      ensures readings == old(readings) + 1 && t == Time(old(readings))
    {
      t := clock(readings);
      readings := readings + 1;
    }

    /** `client.get(u)`. */
    method Get(u: string) returns (o: HttpOutcome)
      modifies this`requests
      ensures requests == old(requests) + [u] && o == net(|old(requests)|, u)
    {
      o := net(|requests|, u);
      requests := requests + [u];
    }

    /** `sleep(d)`. */
    method Sleep(d: real)
      modifies this`sleeps
      ensures sleeps == old(sleeps) + [d]
    {
      sleeps := sleeps + [d];
    }

    /** Writing `data` to the file `name`. */
    method Write(name: string, data: seq<byte>)
      modifies this`files
      ensures files == old(files) + [File(name, data)]
    {
      files := files + [File(name, data)];
    }
  }
}
