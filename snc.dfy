/**
 * The argument check of the small netcat (project1/snc.c, `main`): options may stand in argv[1]
 * and argv[2], the host name is the argument before the last, and the port is the last. Any
 * violation prints the usage text and exits with status 1.
 */
module Snc {
  import opened Base

  /** The mode `main` hands to the server or client routine. */
  datatype Config = Config(server: bool, udp: bool, hostname: Option<string>, port: int)

  datatype Parsed = Usage | Run(config: Config)

  /** `argv[i][0] == '-'`; an empty argument starts with the terminating NUL instead. */
  predicate IsOption(a: string) {
    |a| > 0 && a[0] == '-'
  }

  /** An option of argv[1] or argv[2] that is neither "-l" nor "-u". */
  predicate BadOption(argv: seq<string>)
    requires |argv| >= 3
  {
    exists i :: 1 <= i < 3 && IsOption(argv[i]) && argv[i] != "-l" && argv[i] != "-u"
  }

  /** `flag` stands in argv[1] or argv[2]. */
  predicate Seen(argv: seq<string>, flag: string)
    requires |argv| >= 3
  {
    argv[1] == flag || argv[2] == flag
  }

  /** The argument before the port, unless it is "-l" or "-u". */
  function HostOf(argv: seq<string>): Option<string>
    requires |argv| >= 3
  {
    var h := argv[|argv| - 2];
    if h == "-u" || h == "-l" then None else Some(h)
  }

  /** Every way the arguments are refused; `port` is the number read from the last argument. */
  predicate UsageError(argv: seq<string>, port: int) {
    |argv| < 3 ||
    BadOption(argv) ||
    (HostOf(argv).None? && !IsOption(argv[1])) ||
    (!Seen(argv, "-l") && HostOf(argv).None?) ||
    port < 1024 || port > 65535
  }

  /**
   * `main` up to the choice of routine. `port` stands for `atoi(argv[argc-1])`, which is only
   * looked at once the other checks pass.
   */
  method ParseArgs(argv: seq<string>, port: int) returns (r: Parsed)
    ensures r.Usage? <==> UsageError(argv, port)
    ensures r.Run? ==>
      (|argv| >= 3 && r.config == Config(Seen(argv, "-l"), Seen(argv, "-u"), HostOf(argv), port))
    ensures r.Run? ==> 1024 <= r.config.port <= 65535
    ensures r.Run? ==> r.config.server || r.config.hostname.Some?
  {
    if |argv| < 3 {
      return Usage;
    }
    var server := false;
    var udp := false;
    for i := 1 to 3
      invariant forall j :: 1 <= j < i ==> !(IsOption(argv[j]) && argv[j] != "-l" && argv[j] != "-u")
      invariant server <==> exists j :: 1 <= j < i && argv[j] == "-l"
      invariant udp <==> exists j :: 1 <= j < i && argv[j] == "-u"
    {
      if |argv[i]| > 0 && argv[i][0] == '-' {
        if argv[i] == "-l" {
          server := true;
        } else if argv[i] == "-u" {
          udp := true;
        } else {
          return Usage;
        }
      }
    }
    var hostname: Option<string> := Some(argv[|argv| - 2]);
    if argv[|argv| - 2] == "-u" || argv[|argv| - 2] == "-l" {
      hostname := None;
      if !(|argv[1]| > 0 && argv[1][0] == '-') {
        return Usage;
      }
    }
    if !server && hostname.None? {
      return Usage;
    }
    if port < 1024 || port > 65535 {
      return Usage;
    }
    r := Run(Config(server, udp, hostname, port));
  }

  /** `./snc localhost 9999` runs a client that connects to localhost. */
  lemma ClientExample()
    ensures var argv := ["./snc", "localhost", "9999"];
      !UsageError(argv, 9999) && !Seen(argv, "-l") && !Seen(argv, "-u") && HostOf(argv) == Some("localhost")
  {
    var argv := ["./snc", "localhost", "9999"];
    assert argv[1][0] == 'l' && argv[2][0] == '9';
  }

  /** `./snc -l 9999` runs a server on every interface. */
  lemma ServerExample()
    ensures var argv := ["./snc", "-l", "9999"];
      !UsageError(argv, 9999) && Seen(argv, "-l") && !Seen(argv, "-u") && HostOf(argv).None?
  {
    var argv := ["./snc", "-l", "9999"];
    assert argv[2][0] == '9';
    assert argv[1] != "-u";
  }

  /** `./snc hello -l 9999` is refused: "-l" in the host position with no option in argv[1]. */
  lemma MisplacedOptionExample()
    ensures UsageError(["./snc", "hello", "-l", "9999"], 9999)
  {
    var argv := ["./snc", "hello", "-l", "9999"];
    assert argv[1][0] == 'h';
  }
}
