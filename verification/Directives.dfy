/** The records of htaccess_directives.h. */
module Directives {
  import opened Options
  import opened Bytes

  /** NGX_HTTP_MOVED_TEMPORARILY, the code of a redirect that names none. */
  const MOVED_TEMPORARILY: nat := 302

  /** A RewriteCond line: its test string, its pattern, and whether it is joined to the next one by OR. */
  datatype Cond = Cond(test: Text, value: Option<Text>, orNext: bool)

  datatype Rule = Rule(
    pattern: Text, substitution: Text,
    last: bool, end: bool, nocase: bool,
    redirect: bool, redirectCode: nat,
    chain: bool, chainIn: bool, qsa: bool,
    envVars: seq<Text>, conditions: seq<Cond>)

  datatype AliasKind = Redirect | RedirectMatch | RedirectPermanent | RedirectTemp

  datatype Alias = Alias(from: Text, to: Text, permanent: bool)

  datatype Header = Header(action: Text, name: Text, value: Text, always: bool)

  /** Directives whose merged value is the last one met on the walk. */
  datatype Setting = AuthType | AuthName | AuthUserFile | Order | ExpiresDefault | DirectoryIndex

  /** `code` is -1 when the directive's number does not parse. */
  datatype ErrorDocument = ErrorDocument(code: int, uri: Text)

  datatype Body =
    | RewriteEngine(on: bool)
    | RewriteBase(base: Text)
    | RewriteRule(rule: Rule)
    | Redirection(kind: AliasKind, alias: Alias)
    | Set(setting: Setting, value: Text)
    | Require(requirement: Text)
    | Allow(allowed: Text)
    | Deny(denied: Text)
    | SetHeader(header: Header)
    | ExpiresActive(active: bool)
    | ExpiresByType(mime: Text, expiry: Text)
    | OnError(document: ErrorDocument)
    | Indexes(forbidden: bool)

  /** `filesMatch` is empty outside every <FilesMatch> block. */
  datatype Directive = Directive(filesMatch: Text, body: Body)

  datatype ParsedFile = ParsedFile(directives: seq<Directive>)

  datatype FilesRule = FilesRule(pattern: Text, deny: bool)

  /** One directory of the walk (`htaccess_dir_ctx_t`): its rules and redirections, in order. */
  datatype Dir = Dir(urlPrefix: Text, rewriteBase: Text, rewriteEngine: bool, directives: seq<Body>)

  /** What all files on the walk say together (`htaccess_merged_ctx_t`). */
  datatype Merged = Merged(
    dirs: seq<Dir>,
    settings: map<Setting, Text>,
    requirements: seq<Text>, allows: seq<Text>, denies: seq<Text>,
    headers: seq<Header>,
    expiresActive: bool, expiresByType: seq<(Text, Text)>,
    errorDocuments: seq<ErrorDocument>,
    noIndexes: bool,
    filesRules: seq<FilesRule>)
}
