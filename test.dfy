/** The parts of a Test that the modelled code reads or writes. The type
    itself is declared in ht/test.go, which is not part of this model; the
    fields here are those that substituteVariables copies or rewrites and
    that shouldRun disables. */
module Tests {

  /** The polling policy: the maximum number of tries (negative disables the
      test) and the pause between tries in nanoseconds. */
  datatype Poll = Poll(max: int, sleep: int)

  datatype Cookie = Cookie(name: string, value: string)

  /** The request; `verb` is the HTTP method. */
  datatype Request = Request(
    verb: string,
    url: string,
    paramsAs: string,
    body: string,
    followRedirects: bool,
    params: map<string, seq<string>>,
    header: map<string, seq<string>>,
    cookies: seq<Cookie>)

  /** A check, which the model does not look into: its type name and its
      serialised parameters. */
  datatype Check = Check(kind: string, spec: string)

  /** The contents of a Test at one moment. */
  datatype TestValue = TestValue(
    name: string,
    description: string,
    request: Request,
    poll: Poll,
    timeout: int,
    verbosity: int,
    preSleep: int,
    interSleep: int,
    postSleep: int,
    clientPool: int,
    varEx: map<string, string>,
    criticality: int,
    checks: seq<Check>)

  class Test {
    var name: string
    var description: string
    var request: Request
    var poll: Poll
    var timeout: int
    var verbosity: int
    var preSleep: int
    var interSleep: int
    var postSleep: int
    /** The identity of the shared HTTP client pool. */
    var clientPool: int
    /** The variable extractors, by variable name, each in serialised form. */
    var varEx: map<string, string>
    var criticality: int
    var checks: seq<Check>

    /** The current contents of the test. */
    function Value(): TestValue
      reads this
    {
      TestValue(name, description, request, poll, timeout, verbosity, preSleep, interSleep,
                postSleep, clientPool, varEx, criticality, checks)
    }

    constructor (name: string, description: string, request: Request, poll: Poll,
                 timeout: int, verbosity: int, preSleep: int, interSleep: int, postSleep: int,
                 clientPool: int, varEx: map<string, string>, criticality: int, checks: seq<Check>)
      ensures this.name == name && this.description == description && this.request == request
      ensures this.poll == poll && this.timeout == timeout && this.verbosity == verbosity
      ensures this.preSleep == preSleep && this.interSleep == interSleep && this.postSleep == postSleep
      ensures this.clientPool == clientPool && this.varEx == varEx
      ensures this.criticality == criticality && this.checks == checks
    {
      this.name := name;
      this.description := description;
      this.request := request;
      this.poll := poll;
      this.timeout := timeout;
      this.verbosity := verbosity;
      this.preSleep := preSleep;
      this.interSleep := interSleep;
      this.postSleep := postSleep;
      this.clientPool := clientPool;
      this.varEx := varEx;
      this.criticality := criticality;
      this.checks := checks;
    }
  }
}
