/**
 * The outside world of `OpenWRTAPI` (openwrt-api.js): the `ping` probe and
 * the `node-ssh` session, replaced by a scripted oracle. What the router
 * answers is fixed when the session object is made: whether the host answers
 * the ping, how a connection attempt ends, and the reply (an output triple or
 * an exception) to every command. The oracle records every call it receives,
 * in order, so that the order of the calls and the calls that are NOT made
 * can be stated.
 */
module Transport {
  import opened Wrappers

  /** What the transport does with one command: returns `{stdout, stderr, code}`, or throws. */
  datatype Reply = Output(stdout: string, stderr: string, code: int) | Raise(message: string)

  /** One call that reached the outside world. */
  datatype Event =
    | Ping(host: string)
    | Login(host: string, username: string, password: string, port: nat)
    | Exec(command: string)
    | Dispose

  /** Calls recorded in three runs read the same however the runs are grouped. */
  lemma TraceAssoc(a: seq<Event>, b: seq<Event>, c: seq<Event>)
    ensures (a + b) + c == a + (b + c)
  {
  }

  /** The `NodeSSH` session together with the ping probe. */
  class Link {
    /** `ssh.isConnected()`. */
    var connected: bool
    /** Every call made so far, oldest first. */
    var trace: seq<Event>

    /** Whether the host answers the ping. */
    const alive: bool
    /** How `ssh.connect` ends: `None` when it succeeds, the error message when it throws. */
    const connectError: Option<string>
    /** The reply to each command. */
    const script: string -> Reply

    /** `new NodeSSH()`: a session that is not connected and has seen no call. */
    constructor(alive: bool, connectError: Option<string>, script: string -> Reply)
      ensures this.alive == alive && this.connectError == connectError && this.script == script
      ensures !connected && trace == []
    {
      this.alive := alive;
      this.connectError := connectError;
      this.script := script;
      connected := false;
      trace := [];
    }

    function IsConnected(): bool
      reads this
    {
      connected
    }

    /** `ping.promise.probe(host)`: the `alive` flag of the result. */
    method Probe(host: string) returns (answered: bool)
      modifies this
      ensures answered == alive
      ensures trace == old(trace) + [Ping(host)] && connected == old(connected)
    {
      trace := trace + [Ping(host)];
      answered := alive;
    }

    /**
     * `ssh.connect({host, username, password, port, ...})`. A successful
     * attempt leaves a live session; a failed one leaves none.
     */
    method Connect(host: string, username: string, password: string, port: nat) returns (error: Option<string>)
      modifies this
      ensures error == connectError
      ensures connected == error.None?
      ensures trace == old(trace) + [Login(host, username, password, port)]
    {
      trace := trace + [Login(host, username, password, port)];
      error := connectError;
      connected := error.None?;
    }

    /** `ssh.execCommand(command)` on a live session. */
    method Run(command: string) returns (reply: Reply)
      requires connected
      modifies this
      ensures reply == script(command)
      ensures trace == old(trace) + [Exec(command)] && connected
    {
      trace := trace + [Exec(command)];
      reply := script(command);
    }

    /** `ssh.dispose()`: the session is closed. */
    method Close()
      modifies this
      ensures !connected && trace == old(trace) + [Dispose]
    {
      trace := trace + [Dispose];
      connected := false;
    }
  }
}
