/** SPIFFE identities: printing, checking and reading them on both sides, and renewing under them. */
module Spiffe {
  import opened Options
  import opened Text

  const SCHEME := "spiffe://"

  /** The URI every certificate carries. */
  function Uri(trustDomain: string, role: string, id: string): string {
    SCHEME + trustDomain + "/" + role + "/" + id
  }

  predicate IdChar(c: char) {
    'a' <= c <= 'z' || 'A' <= c <= 'Z' || '0' <= c <= '9' || c == '-' || c == '_' || c == '.'
  }

  predicate ValidID(id: string) {
    0 < |id| <= 128 && forall c <- id :: IdChar(c)
  }

  /** Ids have up to 128 characters: ASCII digits and letters, and minus, dot and underscore. */
  lemma ValidIDExactly(id: string)
    ensures ValidID(id) <==>
      && id != "" && |id| < 129
      && forall c <- id :: c in "-._" || 48 <= c as int < 58 || 65 <= c as int < 91 || 97 <= c as int < 123
  {
  }

  // ---------- The controller ----------

  /** A URI as the certificate parser hands it over. */
  datatype Url = Url(scheme: string, host: string, path: string)

  /** Only what comes before the path is looked at; escapes, queries and fragments do not occur. */
  function ParseUrl(s: string): Option<Url> {
    if !(SCHEME <= s) then None
    else
      var rest := s[|SCHEME|..];
      var slash := Find(rest, '/');
      Some(Url("spiffe", rest[..slash], rest[slash..]))
  }

  function UrlText(u: Url): string {
    u.scheme + "://" + u.host + (if u.path == "" || u.path[0] == '/' then "" else "/") + u.path
  }

  datatype Peer = Peer(spiffeId: string, role: string)

  /** The interceptor's checks on the one URI of the peer's certificate. */
  function ExtractPeer(u: Url, trustDomain: string, roles: set<string>): Option<Peer> {
    var parts := Split(TrimPrefix(u.path, "/"), '/');
    if u.scheme != "spiffe" || u.host != trustDomain || |parts| != 2 then None
    else if roles != {} && parts[0] !in roles then None
    else Some(Peer(UrlText(u), parts[0]))
  }

  /** The id is what follows the expected prefix; a text without the prefix is taken whole, and so has slashes. */
  function IdentityOf(trustDomain: string, peer: Peer): Option<string> {
    var id := TrimPrefix(peer.spiffeId, SCHEME + trustDomain + "/" + peer.role + "/");
    if id == "" || '/' in id then None else Some(id)
  }

  /** The URI of the certificate that a renewal issues. */
  function Renewed(trustDomain: string, peer: Peer, requestId: string): Option<string> {
    if !ValidID(requestId) || IdentityOf(trustDomain, peer) != Some(requestId) then None
    else Some(Uri(trustDomain, peer.role, requestId))
  }

  /** parseConnectorID and parseTunnelerID, which differ in the role only. */
  function ParseID(spiffeId: string, role: string): string {
    var parts := Split(TrimPrefix(spiffeId, SCHEME), '/');
    if spiffeId == "" || |parts| < 3 || parts[1] != role then "" else parts[2]
  }

  // ---------- The Rust connector ----------

  function VerifyUri(uri: string, trustDomain: string, expectedRole: string): Option<string> {
    if !(SCHEME <= uri) then None
    else
      var rest := uri[|SCHEME|..];
      var slash := Find(rest, '/');
      if slash == |rest| || rest[..slash] != trustDomain then None
      else
        var path := rest[slash + 1..];
        var role := path[..Find(path, '/')];
        if expectedRole != "" && role != expectedRole then None else Some(uri)
  }

  function TunnelerId(spiffeId: string): Option<string> {
    if !(SCHEME <= spiffeId) then None
    else
      var rest := spiffeId[|SCHEME|..];
      var slash := Find(rest, '/');
      if slash == |rest| then None
      else
        var parts := Split(rest[slash + 1..], '/');
        if |parts| < 2 || parts[0] != "tunneler" then None else Some(parts[1])
  }

  // ---------- Round trips ----------

  predicate Plain(s: string) {
    '/' !in s
  }

  lemma ValidIsPlain(id: string)
    requires ValidID(id)
    ensures Plain(id) && id != ""
  {
  }

  lemma UriShape(trustDomain: string, role: string, id: string)
    ensures Uri(trustDomain, role, id) == SCHEME + trustDomain + "/" + (role + "/" + id)
  {
  }

  /** Cutting a URI at its scheme and at the first slash after it. */
  lemma UriCut(trustDomain: string, path: string)
    requires Plain(trustDomain)
    ensures var uri := SCHEME + trustDomain + "/" + path;
            var rest := uri[|SCHEME|..];
            && SCHEME <= uri && Find(rest, '/') == |trustDomain| < |rest|
            && rest[..|trustDomain|] == trustDomain && rest[|trustDomain|..] == "/" + path
            && rest[|trustDomain| + 1..] == path
  {
    var rest := trustDomain + "/" + path;
    assert SCHEME + trustDomain + "/" + path == SCHEME + rest;
    FindFirst(trustDomain, '/', path);
    assert rest == trustDomain + ['/'] + path;
  }

  lemma TwoParts(role: string, id: string)
    requires Plain(role) && Plain(id)
    ensures Split(role + "/" + id, '/') == [role, id]
  {
    SplitFirst(role, '/', id);
    SplitWhole(id, '/');
    assert role + "/" + id == role + ['/'] + id;
  }

  lemma ThreeParts(trustDomain: string, role: string, id: string)
    requires Plain(trustDomain) && Plain(role) && Plain(id)
    ensures Split(TrimPrefix(Uri(trustDomain, role, id), SCHEME), '/') == [trustDomain, role, id]
  {
    var rest := trustDomain + ['/'] + (role + "/" + id);
    assert Uri(trustDomain, role, id) == SCHEME + rest;
    SplitFirst(trustDomain, '/', role + "/" + id);
    TwoParts(role, id);
  }

  /** The interceptor sees the path after the trust domain, and reproduces the URI. */
  lemma ExtractCut(trustDomain: string, path: string, roles: set<string>)
    requires Plain(trustDomain)
    ensures var uri := SCHEME + trustDomain + "/" + path;
            && ParseUrl(uri).Some?
            && ExtractPeer(ParseUrl(uri).value, trustDomain, roles)
               == if |Split(path, '/')| == 2 && (roles == {} || Split(path, '/')[0] in roles)
                  then Some(Peer(uri, Split(path, '/')[0])) else None
  {
    hide Find, Split;
    UriCut(trustDomain, path);
    var u := Url("spiffe", trustDomain, "/" + path);
    assert ParseUrl(SCHEME + trustDomain + "/" + path) == Some(u);
    assert TrimPrefix(u.path, "/") == path;
    assert UrlText(u) == SCHEME + trustDomain + "/" + path;
  }

  lemma IdentityCut(trustDomain: string, role: string, id: string)
    requires Plain(id) && id != ""
    ensures IdentityOf(trustDomain, Peer(Uri(trustDomain, role, id), role)) == Some(id)
  {
  }

  /** The controller accepts the URIs it prints, and reads back the same role and id. */
  lemma ControllerRoundTrip(trustDomain: string, role: string, id: string, roles: set<string>)
    requires Plain(trustDomain) && Plain(role) && ValidID(id) && (roles == {} || role in roles)
    ensures var uri := Uri(trustDomain, role, id);
            && ParseUrl(uri).Some?
            && ExtractPeer(ParseUrl(uri).value, trustDomain, roles) == Some(Peer(uri, role))
            && IdentityOf(trustDomain, Peer(uri, role)) == Some(id)
            && Renewed(trustDomain, Peer(uri, role), id) == Some(uri)
  {
    hide ExtractPeer, ParseUrl, IdentityOf, Uri, Split;
    ValidIsPlain(id);
    UriShape(trustDomain, role, id);
    ExtractCut(trustDomain, role + "/" + id, roles);
    TwoParts(role, id);
    IdentityCut(trustDomain, role, id);
  }

  lemma ParseRoundTrip(trustDomain: string, role: string, id: string)
    requires Plain(trustDomain) && Plain(role) && ValidID(id)
    ensures ParseID(Uri(trustDomain, role, id), role) == id
    ensures forall other :: other != role ==> ParseID(Uri(trustDomain, role, id), other) == ""
  {
    hide Split;
    ValidIsPlain(id);
    ThreeParts(trustDomain, role, id);
  }

  /** Further path parts do not keep an id from being read. */
  lemma ParseIgnoresRest(trustDomain: string, role: string, id: string, rest: string)
    requires Plain(trustDomain) && Plain(role) && Plain(id)
    ensures ParseID(Uri(trustDomain, role, id) + "/" + rest, role) == id
  {
    hide Split;
    var path := role + ['/'] + (id + ['/'] + rest);
    var all := trustDomain + ['/'] + path;
    assert Uri(trustDomain, role, id) + "/" + rest == SCHEME + all;
    SplitFirst(trustDomain, '/', path);
    SplitFirst(role, '/', id + ['/'] + rest);
    SplitFirst(id, '/', rest);
  }

  lemma VerifyCut(trustDomain: string, path: string, expected: string)
    requires Plain(trustDomain)
    ensures var uri := SCHEME + trustDomain + "/" + path;
            VerifyUri(uri, trustDomain, expected)
            == if expected == "" || path[..Find(path, '/')] == expected then Some(uri) else None
  {
    hide Find;
    UriCut(trustDomain, path);
  }

  lemma TunnelerCut(trustDomain: string, path: string)
    requires Plain(trustDomain)
    ensures var parts := Split(path, '/');
            TunnelerId(SCHEME + trustDomain + "/" + path)
            == if |parts| < 2 || parts[0] != "tunneler" then None else Some(parts[1])
  {
    hide Find, Split;
    UriCut(trustDomain, path);
  }

  /** The Rust connector accepts the printed URI for its role, for no other, and reads a tunneler's id back. */
  lemma ConnectorRoundTrip(trustDomain: string, role: string, id: string, expected: string)
    requires Plain(trustDomain) && Plain(role) && ValidID(id)
    ensures var uri := Uri(trustDomain, role, id);
            && VerifyUri(uri, trustDomain, expected) == (if expected == "" || expected == role then Some(uri) else None)
            && TunnelerId(uri) == if role == "tunneler" then Some(id) else None
  {
    hide VerifyUri, TunnelerId, Uri, Split, Find;
    ValidIsPlain(id);
    UriShape(trustDomain, role, id);
    VerifyCut(trustDomain, role + "/" + id, expected);
    TunnelerCut(trustDomain, role + "/" + id);
    TwoParts(role, id);
    FindFirst(role, '/', id);
    assert role + "/" + id == role + ['/'] + id;
  }

  lemma UriInjective(trustDomain: string, role: string, id: string, role': string, id': string)
    requires Plain(trustDomain) && Plain(role) && Plain(id) && Plain(role') && Plain(id')
    requires Uri(trustDomain, role, id) == Uri(trustDomain, role', id')
    ensures role == role' && id == id'
  {
    hide Split, Uri;
    ThreeParts(trustDomain, role, id);
    ThreeParts(trustDomain, role', id');
    assert [trustDomain, role, id][1] == [trustDomain, role', id'][1];
    assert [trustDomain, role, id][2] == [trustDomain, role', id'][2];
  }

  // ---------- Renewal keeps the identity ----------

  /** Whatever peer the interceptor lets through, a renewal that succeeds issues that peer's own URI. */
  lemma RenewalKeepsIdentity(u: Url, trustDomain: string, roles: set<string>, requestId: string)
    requires ExtractPeer(u, trustDomain, roles).Some?
    requires Renewed(trustDomain, ExtractPeer(u, trustDomain, roles).value, requestId).Some?
    ensures Renewed(trustDomain, ExtractPeer(u, trustDomain, roles).value, requestId) == Some(UrlText(u))
  {
    var peer := ExtractPeer(u, trustDomain, roles).value;
    var prefix := SCHEME + trustDomain + "/" + peer.role + "/";
    SlashInside(u);
    assert prefix <= UrlText(u);
    assert UrlText(u) == prefix + UrlText(u)[|prefix|..];
  }

  lemma SlashInside(u: Url)
    ensures '/' in UrlText(u)
  {
  }

  // ---------- Exactly what each side accepts ----------

  /** The controller takes a URI of its domain with an allowed role and one more part, an empty one included. */
  lemma ControllerAcceptsExactly(uri: string, trustDomain: string, role: string, roles: set<string>)
    requires Plain(trustDomain) && Plain(role)
    ensures (ParseUrl(uri).Some? && ExtractPeer(ParseUrl(uri).value, trustDomain, roles) == Some(Peer(uri, role)))
       <==> (roles == {} || role in roles) && exists id :: Plain(id) && uri == Uri(trustDomain, role, id)
  {
    hide Find, Split, Uri, ExtractPeer, ParseUrl;
    if ParseUrl(uri).Some? && ExtractPeer(ParseUrl(uri).value, trustDomain, roles) == Some(Peer(uri, role)) {
      var path := AcceptedPath(uri, trustDomain, roles);
      ExtractCut(trustDomain, path, roles);
      SplitPieces(path, '/');
      var id := Split(path, '/')[1];
      assert path == role + "/" + id;
      UriShape(trustDomain, role, id);
    }
    if id :| Plain(id) && uri == Uri(trustDomain, role, id) {
      UriShape(trustDomain, role, id);
      ExtractCut(trustDomain, role + "/" + id, roles);
      TwoParts(role, id);
    }
  }

  lemma AcceptedPath(uri: string, trustDomain: string, roles: set<string>) returns (path: string)
    requires ParseUrl(uri).Some? && ExtractPeer(ParseUrl(uri).value, trustDomain, roles).Some?
    ensures uri == SCHEME + trustDomain + "/" + path
  {
    hide Find, Split, ParseUrl;
    var u := ParseUrl(uri).value;
    UrlPieces(uri);
    SplitWhole("", '/');
    assert u.path != "" by {
      assert TrimPrefix("", "/") == "";
    }
    path := u.path[1..];
    assert u.path == "/" + path;
    assert SCHEME + trustDomain + ("/" + path) == SCHEME + trustDomain + "/" + path;
  }

  lemma UrlPieces(uri: string)
    requires ParseUrl(uri).Some?
    ensures var u := ParseUrl(uri).value;
            uri == SCHEME + u.host + u.path && (u.path == "" || u.path[0] == '/')
  {
    var rest := uri[|SCHEME|..];
    var u := ParseUrl(uri).value;
    assert uri == SCHEME + rest && rest == u.host + u.path;
  }

  /** The Rust connector also takes the role without any id, and any number of further path parts. */
  lemma ConnectorAcceptsExactly(uri: string, trustDomain: string, role: string)
    requires Plain(trustDomain) && Plain(role) && role != ""
    ensures VerifyUri(uri, trustDomain, role).Some?
       <==> uri == SCHEME + trustDomain + "/" + role || exists id :: uri == Uri(trustDomain, role, id)
  {
    hide Find, VerifyUri, Uri;
    if VerifyUri(uri, trustDomain, role).Some? {
      var path := VerifiedPath(uri, trustDomain, role);
      VerifyCut(trustDomain, path, role);
      var end := Find(path, '/');
      if end == |path| {
        assert path == role;
      } else {
        assert path == role + "/" + path[end + 1..];
        UriShape(trustDomain, role, path[end + 1..]);
      }
    }
    if uri == SCHEME + trustDomain + "/" + role {
      VerifyCut(trustDomain, role, role);
      assert Find(role, '/') == |role|;
    } else if id :| uri == Uri(trustDomain, role, id) {
      UriShape(trustDomain, role, id);
      VerifyCut(trustDomain, role + "/" + id, role);
      FindFirst(role, '/', id);
      assert role + "/" + id == role + ['/'] + id;
    }
  }

  lemma VerifiedPath(uri: string, trustDomain: string, role: string) returns (path: string)
    requires VerifyUri(uri, trustDomain, role).Some?
    ensures uri == SCHEME + trustDomain + "/" + path
  {
    var rest := uri[|SCHEME|..];
    path := rest[Find(rest, '/') + 1..];
    assert uri == SCHEME + rest && rest == trustDomain + "/" + path;
  }
}
