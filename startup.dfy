/** The two small pure pieces of the runner outside the dispatch: the
    command-line guard at the top of `main` and the JDBC URL built by
    `connectToPostgres`. */
module Startup {
  import opened Wrappers

  /** What `main` does with its arguments before touching the overlay network:
      exit with a status, or run with the identity file, the inbound service
      and the outbound (database) service. */
  datatype Launch =
    | Exit(status: int)
    | Run(identity: string, inbound: string, outbound: string)

  /** Fewer than three arguments exits with status 1 before any context is
      created; otherwise the first three arguments configure the runner and
      any further ones are ignored. */
  function CheckArgs(args: seq<string>): (r: Launch)
    ensures r.Exit? <==> |args| < 3
    ensures r.Exit? ==> r.status == 1
    ensures r.Run? ==> [r.identity, r.inbound, r.outbound] == args[..3]
  {
    if |args| < 3 then Exit(1) else Run(args[0], args[1], args[2])
  }

  /** Arguments after the third never change the outcome. */
  lemma ExtraArgsIgnored(args: seq<string>, more: seq<string>)
    requires |args| >= 3
    ensures CheckArgs(args + more) == CheckArgs(args)
  {
    assert (args + more)[..3] == args[..3];
  }

  const JdbcPrefix: string := "jdbc:postgresql://"
  const JdbcSuffix: string := "/mydb"

  /** The URL handed to `DriverManager.getConnection`: the outbound service
      name as the PostgreSQL host, database `mydb`. */
  function JdbcUrl(service: string): (url: string)
    ensures |url| == |JdbcPrefix| + |service| + |JdbcSuffix|
    ensures url[..|JdbcPrefix|] == JdbcPrefix
    ensures url[|JdbcPrefix|..|url| - |JdbcSuffix|] == service
    ensures url[|url| - |JdbcSuffix|..] == JdbcSuffix
  {
    JdbcPrefix + service + JdbcSuffix
  }

  /** `url` starts with the JDBC prefix and ends with the database suffix. */
  predicate IsJdbcUrl(url: string) {
    |url| >= |JdbcPrefix| + |JdbcSuffix|
    && url[..|JdbcPrefix|] == JdbcPrefix
    && url[|url| - |JdbcSuffix|..] == JdbcSuffix
  }

  /** The host part of a URL of that shape, if it has that shape. */
  function ServiceOf(url: string): (r: Option<string>)
    ensures r.Some? <==> IsJdbcUrl(url)
    ensures r.Some? ==> |r.value| == |url| - |JdbcPrefix| - |JdbcSuffix|
  {
    if IsJdbcUrl(url) then Some(url[|JdbcPrefix|..|url| - |JdbcSuffix|]) else None
  }

  /** The service can be read back from the URL, so distinct services never
      share a URL. */
  lemma JdbcUrlRoundTrip(service: string)
    ensures ServiceOf(JdbcUrl(service)) == Some(service)
  {
  }

  lemma JdbcUrlInjective(a: string, b: string)
    requires JdbcUrl(a) == JdbcUrl(b)
    ensures a == b
  {
    JdbcUrlRoundTrip(a);
    JdbcUrlRoundTrip(b);
  }

  /** Every URL of that shape is the URL of the service read from it. */
  lemma ServiceOfInverse(url: string)
    requires ServiceOf(url).Some?
    ensures JdbcUrl(ServiceOf(url).value) == url
  {
    var n := |url|;
    var p, q := |JdbcPrefix|, |JdbcSuffix|;
    assert url == url[..p] + url[p..n - q] + url[n - q..];
  }
}
