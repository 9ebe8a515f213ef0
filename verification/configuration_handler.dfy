/**
  The server-side configuration handler: option checking when it is built,
  the facts the server adds to every node, the choice of the key a node is
  looked up by, appending configured classes to a node, and the local /
  networked translation of a compiled configuration.

  Facter is a partial map from fact names to values (a fact Facter cannot
  retrieve is absent).  Node lookup, `Node#merge`, compilation and the YAML/CGI
  encoding are code outside this model and enter as function parameters.
 */
module ConfigurationHandler {
  import opened Wrappers

  /** One entry of the options hash given to `initialize`. */
  datatype HandlerOption =
    | ClassesOption(classes: Option<seq<string>>)   // :Classes
    | LocalOption(local: bool)                       // :Local
    | OtherOption(name: string)                      // any other key

  datatype Handler = Handler(
    classes: Option<seq<string>>,
    local: bool,
    serverFacts: map<string, Option<string>>)

  predicate Accepted(o: HandlerOption) { !o.OtherOption? }

  /** The server facts `set_server_facts` derives from Facter and the server
      version.  "servername" is always a key, with a nil value when neither
      fqdn nor domain nor hostname is known; `[nil, domain].join(".")` renders
      the missing host as the empty string. */
  function ServerFacts(facter: map<string, string>, version: string): (r: map<string, Option<string>>)
    ensures "serverversion" in r && r["serverversion"] == Some(version)
    ensures "serverip" in r <==> "ipaddress" in facter
    ensures "serverip" in r ==> r["serverip"] == Some(facter["ipaddress"])
    ensures "servername" in r
    ensures "fqdn" in facter ==> r["servername"] == Some(facter["fqdn"])
    ensures "fqdn" !in facter && "domain" in facter ==>
              r["servername"] == Some((if "hostname" in facter then facter["hostname"] else "")
                                      + "." + facter["domain"])
    ensures "fqdn" !in facter && "domain" !in facter ==>
              r["servername"] == (if "hostname" in facter then Some(facter["hostname"]) else None)
    ensures r.Keys <= {"serverversion", "servername", "serverip"}
  {
    var base := map["serverversion" := Some(version)];
    var withName := if "fqdn" in facter then base["servername" := Some(facter["fqdn"])] else base;
    var withIp := if "ipaddress" in facter then withName["serverip" := Some(facter["ipaddress"])] else withName;
    if "servername" in withIp && withIp["servername"].Some? then withIp
    else
      var host := if "hostname" in facter then Some(facter["hostname"]) else None;
      if "domain" in facter then withIp["servername" := Some(host.GetOr("") + "." + facter["domain"])]
      else withIp["servername" := host]
  }

  /** The server knows its own name exactly when Facter knows at least one of
      fqdn, domain and hostname. */
  lemma ServerNameKnown(facter: map<string, string>, version: string)
    ensures ServerFacts(facter, version)["servername"].Some? <==>
              "fqdn" in facter || "domain" in facter || "hostname" in facter
  {
  }

  /** Entry i is the options' last :Local entry. */
  predicate LastLocalAt(options: seq<HandlerOption>, i: int) {
    && 0 <= i < |options| && options[i].LocalOption?
    && forall j :: i < j < |options| ==> !options[j].LocalOption?
  }

  /** Entry i is the options' last :Classes entry. */
  predicate LastClassesAt(options: seq<HandlerOption>, i: int) {
    && 0 <= i < |options| && options[i].ClassesOption?
    && forall j :: i < j < |options| ==> !options[j].ClassesOption?
  }

  /** The :Local value the options give: that of the last :Local entry,
      false when there is none. */
  function GivenLocal(options: seq<HandlerOption>): (r: bool)
    ensures (forall i :: 0 <= i < |options| ==> !options[i].LocalOption?) ==> !r
    ensures forall i :: LastLocalAt(options, i) ==> r == options[i].local
    decreases |options|
  {
    if |options| == 0 then false
    else
      LastEntries(options);
      match options[|options| - 1]
      case LocalOption(local) => local
      case _ => GivenLocal(options[..|options| - 1])
  }

  /** The :Classes value the options give: that of the last :Classes entry,
      nil when there is none. */
  function GivenClasses(options: seq<HandlerOption>): (r: Option<seq<string>>)
    ensures (forall i :: 0 <= i < |options| ==> !options[i].ClassesOption?) ==> r == None
    ensures forall i :: LastClassesAt(options, i) ==> r == options[i].classes
    decreases |options|
  {
    if |options| == 0 then None
    else
      LastEntries(options);
      match options[|options| - 1]
      case ClassesOption(classes) => classes
      case _ => GivenClasses(options[..|options| - 1])
  }

  /** `initialize`: every option key must be :Classes or :Local, and the
      handler keeps the values given for them.  The options are the hash's
      entries in order; a Ruby hash holds each key once, so its entry for a
      key is also the last one. */
  function New(options: seq<HandlerOption>, facter: map<string, string>, version: string)
    : (r: Result<Handler>)
    ensures r.Err? <==> exists i :: 0 <= i < |options| && !Accepted(options[i])
    ensures r.Err? ==> r.error.kind == ArgumentError
    ensures r.Ok? ==> r.value.serverFacts == ServerFacts(facter, version)
    ensures r.Ok? ==> r.value.classes == GivenClasses(options)
    ensures r.Ok? ==> r.value.local == GivenLocal(options)
    decreases |options|
  {
    if |options| == 0 then Ok(Handler(None, false, ServerFacts(facter, version)))
    else
      var last := options[|options| - 1];
      var rest := New(options[..|options| - 1], facter, version);
      assert forall i :: 0 <= i < |options| - 1 ==> options[..|options| - 1][i] == options[i];
      match last
      case OtherOption(name) =>
        Err(Error(ArgumentError, "Configuration handler does not accept " + name))
      case ClassesOption(classes) =>
        if rest.Err? then rest else Ok(rest.value.(classes := classes))
      case LocalOption(local) =>
        if rest.Err? then rest else Ok(rest.value.(local := local))
  }

  /** How the last entries of the options relate to those of all but the
      final entry. */
  lemma LastEntries(options: seq<HandlerOption>)
    requires |options| > 0
    ensures var front := options[..|options| - 1];
            && (forall i :: 0 <= i < |front| ==> front[i] == options[i])
            && (forall i :: LastLocalAt(options, i) && !options[|options| - 1].LocalOption? ==>
                              LastLocalAt(front, i))
            && (forall i :: LastClassesAt(options, i) && !options[|options| - 1].ClassesOption? ==>
                              LastClassesAt(front, i))
            && (forall i :: LastLocalAt(options, i) && options[|options| - 1].LocalOption? ==>
                              i == |options| - 1)
            && (forall i :: LastClassesAt(options, i) && options[|options| - 1].ClassesOption? ==>
                              i == |options| - 1)
  {
  }

  /** Adding a :Classes entry to accepted options sets the classes to its
      value and changes nothing else. */
  lemma {:induction false} NewLastClassesWins(options: seq<HandlerOption>, facter: map<string, string>,
                                             version: string, classes: Option<seq<string>>)
    requires New(options, facter, version).Ok?
    ensures New(options + [ClassesOption(classes)], facter, version) ==
            Ok(New(options, facter, version).value.(classes := classes))
  {
    var extended := options + [ClassesOption(classes)];
    assert extended[..|extended| - 1] == options;
  }

  /** The key a node is looked up by: with `node_name` set to "cert" and a
      client name given, the certificate's name replaces the requested key. */
  function ConfigurationKey(nodeName: string, key: string, client: Option<string>): (r: string)
    ensures nodeName == "cert" && client.Some? ==> r == client.value
    ensures nodeName != "cert" || client.None? ==> r == key
  {
    if nodeName == "cert" && client.Some? then client.value else key
  }

  datatype Node<P> = Node(name: string, parameters: P, classes: seq<string>)

  /** `node.classes << klass` for each configured class, in order. */
  method AppendClasses(nodeClasses: seq<string>, klasses: seq<string>) returns (r: seq<string>)
    ensures |r| == |nodeClasses| + |klasses|
    ensures r[..|nodeClasses|] == nodeClasses
    ensures forall j :: 0 <= j < |klasses| ==> r[|nodeClasses| + j] == klasses[j]
  {
    r := nodeClasses;
    var i := 0;
    while i < |klasses|
      invariant 0 <= i <= |klasses|
      invariant |r| == |nodeClasses| + i
      invariant r[..|nodeClasses|] == nodeClasses
      invariant forall j :: 0 <= j < i ==> r[|nodeClasses| + j] == klasses[j]
    {
      r := r + [klasses[i]];
      i := i + 1;
    }
  }

  /** `add_node_data`: merge the server facts into the node's parameters, then
      append the configured classes (none when the option was not given). */
  method AddNodeData<P>(handler: Handler, node: Node<P>,
                        merge: (P, map<string, Option<string>>) -> P)
    returns (r: Node<P>)
    ensures r.name == node.name
    ensures r.parameters == merge(node.parameters, handler.serverFacts)
    ensures handler.classes.None? ==> r.classes == node.classes
    ensures handler.classes.Some? ==> r.classes == node.classes + handler.classes.value
  {
    var classes := node.classes;
    if handler.classes.Some? {
      classes := AppendClasses(node.classes, handler.classes.value);
      assert classes == node.classes + handler.classes.value;
    }
    r := Node(node.name, merge(node.parameters, handler.serverFacts), classes);
  }

  /** What `translate` hands back: the configuration itself for a local
      handler, its encoded text otherwise. */
  datatype Served<C> = LocalConfig(config: C) | EncodedConfig(text: string)

  function Translate<C>(handler: Handler, config: C, encode: C -> string): (r: Served<C>)
    ensures handler.local <==> r.LocalConfig?
    ensures r.LocalConfig? ==> r.config == config
    ensures r.EncodedConfig? ==> r.text == encode(config)
  {
    if handler.local then LocalConfig(config) else EncodedConfig(encode(config))
  }

  /** `configuration(key, client)`: choose the key, look the node up (an
      unknown node is a Puppet::Error), add the server data, compile, and
      translate. */
  method Configuration<P, C>(handler: Handler, nodeName: string, key: string, client: Option<string>,
                             find: string -> Option<Node<P>>,
                             merge: (P, map<string, Option<string>>) -> P,
                             compile: Node<P> -> Result<C>,
                             encode: C -> string)
    returns (r: Result<Served<C>>)
    ensures find(ConfigurationKey(nodeName, key, client)).None? ==>
              r.Err? && r.error.kind == PuppetError
    ensures find(ConfigurationKey(nodeName, key, client)).Some? ==>
              var node := find(ConfigurationKey(nodeName, key, client)).value;
              var classes := node.classes + handler.classes.GetOr([]);
              var compiled := compile(Node(node.name, merge(node.parameters, handler.serverFacts), classes));
              && (compiled.Err? ==> r == Err(compiled.error))
              && (compiled.Ok? ==> r == Ok(Translate(handler, compiled.value, encode)))
  {
    var k := ConfigurationKey(nodeName, key, client);
    var found := find(k);
    if found.None? {
      return Err(Error(PuppetError, "Could not find node '" + k + "'"));
    }
    var node := AddNodeData(handler, found.value, merge);
    assert handler.classes.None? ==> found.value.classes + handler.classes.GetOr([]) == found.value.classes;
    var compiled := compile(node);
    if compiled.Err? {
      return Err(compiled.error);
    }
    r := Ok(Translate(handler, compiled.value, encode));
  }
}
