# A verified model of the Argo Tunnel ingress controller

The controller watches Ingress, Service, Endpoints and Secret objects of a Kubernetes cluster and keeps a
set of tunnels running, one for each host and service port that the ingresses of its class ask for. This
project models its core and proves what it promises:

- **Reconciliation** (`Reconcile`, `Convergence`, `Settling`, `Leaving`, `Workers`). Informer notices,
  filters, the work queue, the workers and the router as one state machine. Each cache read of a worker is a
  step of its own, so the caches may change between any two of them. With one worker, whenever nothing is
  queued, undelivered or in process, the router holds exactly the translation of the caches from scratch, and
  exactly those tunnels run; left alone, the controller always gets there.
- **Translation and indexes** (`Cluster`, `Translation`, `Indexes`). The route of an ingress is sound and
  complete, the indexes list all it can depend on, the router's delete shortcut equals a new translation,
  and reordering rules or paths changes nothing.
- **The router** (`Router`, `Ownership`). A class with the router's loops, proved against a value-level
  description, and ownership of links over every interleaving of operations and asynchronous stops.
- **The link life cycle** (`LinkProtocol`, `LinkSafety`, `LinkTheorems`, `LinkRepairs`, `LinkLaunches`,
  `RouterLinks`). `start`, `stop`, the repair and the launch goroutines as threads with program counters over
  shared channels and a mutex, any number of each, interleaved at every shared access; that errors are
  repaired, exactly; and why the router starts and stops each link once.
- **Configuration and small algorithms** (`OriginSecrets`, `Tags`, `Keys`, `Backoff`, `Retry`, with `Text`
  and `Base` below them): secret groups, tag scanning, key encodings, repair delays, bounded retry.

Three properties one might expect do not hold of the code. Each has runs that show it and a theorem that says
exactly when it holds:

- An ingress that leaves the controller's class keeps its tunnels: the filter turns the update into a delete,
  but `handleIngress` finds the ingress in the cache and translates it again without looking at its class
  (`LeavingTheClassKeepsTheTunnels`, for every quiescent state), and nothing short of an ingress of the class
  under the same name ever takes them down (`TheLeakIsPermanent`). For a given sequence of writes a route can
  stay behind if and only if an ingress of another class has been stored under the name since the last one of
  the class (`RouteCanStayIff`); all other names converge without exception (`Converges`).
- Two workers whose handling overlaps can leave a tunnel running for a deleted ingress, because routes are
  computed outside the router's lock (`OverlapKeepsADeletedIngress`). Convergence holds for a number of
  workers if and only if it is at most one (`ConvergesIff`); the default is two
  (internal/argotunnel/options.go:20). Router and link invariants hold for any number (`OwnedForAnyWorkers`).
- `stop` does not wait for a launch, and an unfinished launch of any link can be left blocked on `errCh` for
  ever (`AnyLaunchCanBeAbandoned`). In a stopped link it can still finish if and only if some repair goroutine
  has not returned (`CanFinishIff`).

Where comments and code disagree the model follows the code: the repair delay is called linear
(internal/argotunnel/tunnel.go:375) but doubles with each step of a cycle, and the requeue limit is called the
number of processing attempts (internal/argotunnel/options.go:51) but a failing key is handled once more than
that.

`dafny verify dfyconfig.toml` verifies the whole project, in a minute or two.

## Model

| member | source | states |
|---|---|---|
| `Convergence.Converges` | internal/argotunnel/translator.go:46-263 | In every run with one worker and any interleaving of cache changes, notices, reads and stops, the rules, certificates and options in a quiescent router, apart from names that left the class and were not taken back, equal a from-scratch translation of the caches: one route per cached ingress of the class and no other. |
| `Convergence.ConvergesFor` | internal/argotunnel/queue.go:46-99 | The same name by name: an ingress of the class always has its translation; a name without one has no route unless an ingress of another class was stored under it since the last one of the class. |
| `Convergence.RunningIsWanted` | internal/argotunnel/router.go:25-133 | In a quiescent state every wanted rule has a running link, and every running link is the one of a wanted rule, with its certificate and options, or belongs to a name that left the class. |
| `Convergence.StepKept` | internal/argotunnel/worker.go:42-65 | Every step keeps the invariant: each rule of each ingress is right, or a key it depends on is queued, undelivered or in the worker's hands. |
| `Convergence.ChangeKept` | internal/argotunnel/queue.go:46-99 | A cache write or delete, at any point of the worker's handling, keeps that invariant. |
| `Convergence.ChangeAgrees` | internal/argotunnel/queue.go:71-99 | The filters lose nothing: a change that is not enqueued cannot alter the certificate, the ports or the address that decide about a rule. |
| `Reconcile.EnqueuesIff` | internal/argotunnel/queue.go:46-99 | A notice is queued if and only if the object differs and, before or after, is an ingress of the class, a secret with `cert.pem`, endpoints with subsets, or any service. |
| `Convergence.DeliverKept` | internal/argotunnel/queue.go:46-69 | Moving a notice to the queue, or dropping it as the filter and the equality test decide, keeps the invariant. |
| `Convergence.TookKept` | internal/argotunnel/translator.go:46-87 | Looking up the object of the taken key keeps the invariant; a missing ingress is answered by removing its route. |
| `Convergence.ListingKept` | internal/argotunnel/translator.go:89-128 | Reading the index, after the existence check and possibly after further changes, keeps the invariant for both the update and the delete path. |
| `Convergence.UnlistedIsRight` | internal/argotunnel/translator.go:96-126 | An ingress that the index does not list neither wants nor holds a rule using the object. |
| `Convergence.TakeDownListing` | internal/argotunnel/translator.go:113-128 | Dropping the links of a vanished object from the listed routes makes every route right for it. |
| `Convergence.StepKeepsCursor` | internal/argotunnel/translator.go:180-256 | One read of a translation in progress keeps the links attached so far exact for every rule whose objects are not to be handled again. |
| `Convergence.FinishJob` | internal/argotunnel/translator.go:103-109 | A translation finished over changing caches is right for its ingress, or the ingress or the rule's objects are to be handled again. |
| `Convergence.TranslatingKept` | internal/argotunnel/translator.go:161-263 | Every step of translating the listed ingresses keeps the invariant. |
| `Convergence.ApplyKept` | internal/argotunnel/router.go:25-133 | Handing the computed routes, the delete or the filter to the router keeps the invariant and ownership. |
| `Settling.SettlesOnTheTranslation` | internal/argotunnel/worker.go:37-65 | From every reachable state the controller, left alone, reaches a quiescent state whose routes, names that left the class apart, are the translation of the present caches. |
| `Settling.StepsTowardsQuiet` | internal/argotunnel/worker.go:42-57 | Every step of the controller lowers one lexicographic measure, so every run without cluster changes ends. |
| `Settling.CanStep` | internal/argotunnel/worker.go:42-57 | Short of quiescence some step of the controller is possible. |
| `Leaving.RouteCanStayIff` | internal/argotunnel/queue.go:80-89 | For every sequence of writes, with no ingress of the class under the name in the end, some order of handling them ends quiescent with a route for the name if and only if an ingress of another class has been stored there since the last one of the class. |
| `Leaving.RouteCanStay` | internal/argotunnel/translator.go:130-148 | The run for the "if": the notices are withheld until the ingress of the other class is cached, and later writes do not remove the route. |
| `Leaving.LeavingTheClassKeepsTheTunnels` | internal/argotunnel/translator.go:130-148 | From every quiescent state, changing nothing but the class of a managed ingress ends quiescent with the same routes and the same tunnels running. |
| `Leaving.LeavingTheClassKeepsTheRoute` | internal/argotunnel/translator.go:142-148 | For every name, host, certificate valid for it and options, a run ends quiescent with the ingress cached under another class and its tunnel running. |
| `Leaving.TheLeakIsPermanent` | internal/argotunnel/queue.go:80-89 | Such a route and all its tunnels stay as they are in every later run, deletion of the ingress included, until an ingress of the class is stored under the name again. |
| `Leaving.TranslateAlone` | internal/argotunnel/translator.go:161-263 | The step-by-step translation, over caches that stay as they are, ends with exactly the from-scratch translation. |
| `Workers.ConvergesIff` | internal/argotunnel/worker.go:29-31 | For every configuration, convergence in all runs holds if and only if there is at most one worker. |
| `Workers.OverlapKeepsADeletedIngress` | internal/argotunnel/translator.go:103-109 | For every number of workers from two on, a run ends with nothing queued, undelivered or in process, the ingress deleted, and its route, with a running tunnel if the certificate is valid, still in the router. |
| `Workers.OwnedForAnyWorkers` | internal/argotunnel/router.go:25-133 | For any number of workers every run drives the router through a run of its own operations with new links, so ownership holds in every state. |
| `Workers.KeysAreExclusive` | internal/argotunnel/worker.go:42-57 | In every run of any number of workers a worker handles a key exactly while it is not idle, and no two handle the same key. |
| `Translation.GetRouteFromIngress` | internal/argotunnel/translator.go:161-263 | The nested loops compute the links of all paths in order, later ones winning; a rule is among them exactly if some path asks for it in the sense of `TranslateExact`. |
| `Translation.AttachPaths` | internal/argotunnel/translator.go:217-255 | The inner loop adds to what was there exactly the rules that a path of this rule asks for: path text empty or "/", service named, matching TCP port, an address. |
| `Translation.CollectTls` | internal/argotunnel/translator.go:169-177 | A host is mapped exactly if some TLS entry lists it, to the secret name, empty or not, of the last entry that does. |
| `Translation.TlsNamesExact` | internal/argotunnel/translator.go:169-177 | The same for the map that the translation specification uses. |
| `Translation.GetVerifiedPort` | internal/argotunnel/translator.go:288-320 | Some(v): the cached service has a first port with protocol TCP and the wanted number or name, v is its number, and some endpoints subset has an address. None: no v is so. |
| `Translation.RuleWithoutCert` | internal/argotunnel/translator.go:180-215 | A rule without host, paths section, secret or valid certificate contributes nothing whatever its paths. |
| `Translation.TranslateExact` | internal/argotunnel/translator.go:161-320 | Soundness and completeness, over the text of the ingress and the caches: a rule is in the route if and only if some path, empty or "/", names its service, the secret for its host (last TLS entry, else own, else domain, else default) holds a `cert.pem` valid for the host, its port is the first TCP port of the service with the wanted number or name, and an endpoints subset has an address; the link carries that certificate and the options of the ingress. |
| `Translation.ResolveExact` | internal/argotunnel/translator.go:185-196 | The translator finds secret n for a host if and only if n is named by the last TLS entry that lists the host; else is the host's own; else that of the domain it lies directly under; else the default. |
| `Translation.ParseDomainExact` | internal/argotunnel/informer.go:155-161 | d is the domain of a host if and only if d is not empty and the host is d with one non-empty, dot-free label and a dot in front. |
| `Cluster.FirstPort` | internal/k8s/audit.go:56-72 | The first port with the number or name and the protocol; none exactly if no port matches. |
| `Cluster.GetServicePort` | internal/k8s/audit.go:56-72 | The search loop returns the first port with the protocol and the number or name, and none only if there is no such port. |
| `Cluster.HasEndpointsAddresses` | internal/k8s/audit.go:14-23 | True exactly if some subset has an address. |
| `Indexes.SecretIndex` | internal/argotunnel/informer.go:87-121 | The index lists exactly the secrets that hosts of rules with paths have in an ingress of the class: last named TLS entry, else own, else domain, else default. |
| `Indexes.ServiceIndex` | internal/argotunnel/informer.go:123-142 | The index lists exactly the services named by paths under a host in an ingress of the class, in the namespace of the ingress. |
| `Indexes.CollectIndexTls` | internal/argotunnel/informer.go:92-102 | A host is mapped exactly if some TLS entry with a secret name lists it, to the name in the last such entry. |
| `Indexes.IndexNamesExact` | internal/argotunnel/informer.go:92-102 | The same for the map that the index specification uses. |
| `Indexes.TlsAgrees` | internal/argotunnel/informer.go:92-102 | Where the translator finds a named TLS secret the index finds the same; where it finds none the index finds none. |
| `Indexes.LinksAreIndexed` | internal/argotunnel/informer.go:87-142 | The service of every translated link is indexed, and so is its secret unless it has no name. |
| `Indexes.Locality` | internal/argotunnel/translator.go:161-320 | Whether and how a rule is translated depends on its own secret, service and endpoints alone, at every point of the translation. |
| `Indexes.IndexesAreComplete` | internal/argotunnel/informer.go:87-161 | Any two caches that agree on the indexed objects (and on nameless ones) give an ingress the same route: no affected ingress is missed. |
| `Indexes.IndexesAreCompleteIff` | internal/argotunnel/translator.go:170-177 | Without that proviso the indexes of an ingress are complete for all caches if and only if no acceptable path asks for a nameless secret that is not indexed, under a host for which some certificate is valid. A cluster stores no nameless secret; this is why the proviso is there. |
| `Indexes.DeleteShortcut` | internal/argotunnel/router.go:104-133 | For every cache and every Service, Endpoints or Secret, filtering the route by the object equals translating without it. |
| `Indexes.OrderDoesNotMatter` | internal/argotunnel/translator.go:178-262 | Ingresses that list the same paths for the same hosts, in any order and multiplicity, have the same translation. |
| `Indexes.PermutedRules` | internal/argotunnel/translator.go:180-256 | Permuting the rules lists the same paths. |
| `Indexes.PermutedPaths` | internal/argotunnel/translator.go:217-255 | Permuting the paths within rules lists the same paths. |
| `Router.SyncTunnelRouter.constructor` | internal/argotunnel/router.go:159-165 | A new router is empty. |
| `Router.SyncTunnelRouter.UpdateRoute` | internal/argotunnel/router.go:44-79 | The three loops come to one set difference and union: equal links taken over, changed ones replaced, dropped ones stopped. |
| `Router.SyncTunnelRouter.SwapLinks` | internal/argotunnel/router.go:56-70 | The loop over the new links stops and starts exactly the changed and added ones, and returns the links to keep and those left over. |
| `Router.SyncTunnelRouter.StartLinks` | internal/argotunnel/router.go:51-54 | A new route starts all its links. |
| `Router.SyncTunnelRouter.StopLinks` | internal/argotunnel/router.go:74-76 | Exactly the links without a successor are stopped. |
| `Router.SyncTunnelRouter.UpdateByKindRoutes` | internal/argotunnel/router.go:32-41 | The routes are applied one after the other. |
| `Router.SyncTunnelRouter.DeleteByRoute` | internal/argotunnel/router.go:81-102 | The loop hands exactly the links of the route, and no other, to goroutines that stop them; the route is gone, other routes are untouched, and an unknown key changes nothing. |
| `Router.SyncTunnelRouter.DeleteByKindKeys` | internal/argotunnel/router.go:104-133 | Exactly the links of the named routes that use the resource leave and await their stop, repeated and unknown keys included. |
| `Router.SyncTunnelRouter.SplitLinks` | internal/argotunnel/router.go:116-126 | The loop splits a route into the links that use the resource and the others. |
| `Router.SyncTunnelRouter.Halt` | internal/argotunnel/router.go:143-157 | Every link of every route awaits its stop, and the routes stay listed. |
| `Router.SwapThenStop` | internal/argotunnel/router.go:57-76 | Stopping and starting link by link in any order, then stopping the rest, equals the one set expression, because new and old links are disjoint. |
| `Router.DropOneMore` | internal/argotunnel/router.go:113-129 | One more key of a delete, new, repeated or unknown, extends the routes dropped and the links handed over accordingly. |
| `Ownership.OwnedAlways` | internal/argotunnel/router.go:25-133 | After every interleaving of updates, deletes and stops by any number of workers: a link runs exactly when it is in a route or awaits its stop, never both, under its own rule, in one route only. |
| `Ownership.StepOwned` | internal/argotunnel/router.go:25-133 | Every operation keeps ownership. |
| `Ownership.UpdateOwned` | internal/argotunnel/router.go:44-79 | A route update keeps ownership. |
| `Ownership.DeleteRouteOwned` | internal/argotunnel/router.go:81-102 | Deleting a route keeps ownership: its links move from the route to the stops. |
| `Ownership.DeleteKindOwned` | internal/argotunnel/router.go:104-133 | Deleting by resource keeps ownership: exactly the users of the resource move to the stops. |
| `Ownership.FinishStopOwned` | internal/argotunnel/router.go:167-171 | A completed stop keeps ownership: the link leaves the running ones and those awaiting a stop together, and no route. |
| `Ownership.StoppedForGood` | internal/argotunnel/router.go:25-133 | A stopped link never runs again and no route ever holds it again, in any later run. |
| `Ownership.MinimalReconciliation` | internal/argotunnel/tunnel.go:130-144 | After an update a link starts exactly for new or changed rules and stops exactly for gone or changed ones; unchanged rules keep the old link; every other link and route is untouched. |
| `Router.EqualExact` | internal/argotunnel/tunnel.go:130-144 | Links are equal if and only if host, service, port, certificate and options are, for service names without dots and namespaces without colons; the name of the secret does not matter. |
| `Router.OriginUrlExact` | internal/argotunnel/tunnel.go:250-253 | Under the same proviso the origin address tells services and ports apart. |
| `Ownership.UpdateSpecs` | internal/argotunnel/router.go:44-79 | The stored rules, certificates and options are those of the new route. |
| `Ownership.EqualRouteIsFree` | internal/argotunnel/router.go:55-77 | Applying an equal route starts and stops nothing. |
| `Ownership.ReorderingRestartsNothing` | internal/argotunnel/router.go:55-77 | An edit that only reorders or repeats rules and paths restarts no tunnel. |
| `Ownership.HaltStopsEverything` | internal/argotunnel/router.go:143-157 | After `halt`, in every run of the stops, in any order, that leaves none waiting, nothing runs, though the routes are still listed. |
| `Ownership.StopsComplete` | internal/argotunnel/router.go:143-157 | Such a run exists from every state. |
| `RouterLinks.LinksStartOnce` | internal/argotunnel/router.go:44-133 | At every point of every run of a new router each link has been started at most once and stopped no more often than started, and runs exactly if started and not stopped. |
| `RouterLinks.OwnedLinkStartsOnce` | internal/argotunnel/tunnel.go:146-164 | Such a link, called to start as often as the router starts it, has at most one effective start under every interleaving, so at most one launch is unfinished or one repair in progress. |
| `LinkTheorems.EveryInterleavingIsSafe` | internal/argotunnel/tunnel.go:146-184 | For any number of starts, stops, stale repairers and launches: no nil or closed channel is ever closed; with the mutex free `stopCh` is nil exactly when `quitCh` is, and every other channel is closed; at most one launch is uncancelled; a launch sends exactly once. |
| `LinkTheorems.LaunchesArePaidFor` | internal/argotunnel/tunnel.go:331-416 | With the mutex free, launches number one per effective start and one per repair; every launch is unfinished or its report was received; unfinished launches and repairs in progress never outnumber the starts. |
| `LinkRepairs.ErrorsAreRepaired` | internal/argotunnel/tunnel.go:364-411 | In every run repairs counted and in progress are at most the error reports received, and without an effective stop exactly as many; with the mutex free, unfinished launches, repairs in progress and launches ended without an error then make up the effective starts. |
| `LinkRepairs.RepairHappens` | internal/argotunnel/tunnel.go:392-410 | From every reachable state with the link running and the mutex free, a repairer that has taken an error comes by its own steps alone to close the old stop channel, make a new one, count the repair and launch on it. |
| `LinkRepairs.FailureIsRepaired` | internal/argotunnel/tunnel.go:339-350 | In a running link started once, a daemon that returns an error or panics is replaced by a new launch on a new stop channel without any call of start or stop. |
| `LinkRepairs.RunningIsWatched` | internal/argotunnel/tunnel.go:360-366 | A running link with its mutex free has a repairer that has not returned. |
| `LinkTheorems.StartedOnce` | internal/argotunnel/tunnel.go:354-416 | For a link started at most once, at most one launch is unfinished or one repair in progress: a repair closes `stopCh` only after that launch has ended. |
| `LinkTheorems.AfterTheLastStop` | internal/argotunnel/tunnel.go:166-184 | With `stopCh` nil and no further effective start, no launch happens in any later run, and at most as many reports are received as launches are unfinished, which is at most one for a link started once. |
| `LinkTheorems.RepairerWindsDown` | internal/argotunnel/tunnel.go:360-412 | After the last stop each step of a repairer lowers a measure built on the pending senders, and no other step raises it. |
| `LinkTheorems.RepairerStepsAreBounded` | internal/argotunnel/tunnel.go:360-412 | After the last stop a repairer takes at most 8 steps per effective start and 6 more in any run of any length. |
| `LinkTheorems.RepairerCanMove` | internal/argotunnel/tunnel.go:360-401 | After the last stop a repairer that has not returned can move, or waits for a mutex whose holder can. |
| `LinkTheorems.HolderCanMove` | internal/argotunnel/tunnel.go:151-182 | The holder of the mutex can always move, and each move shortens its critical section. |
| `LinkLaunches.CanFinishIff` | internal/argotunnel/tunnel.go:339-366 | For every unfinished launch of a stopped link with its mutex free, some run without a new start finishes it if and only if some repair goroutine has not returned. |
| `LinkLaunches.AnyLaunchCanBeAbandoned` | internal/argotunnel/tunnel.go:166-184 | From every reachable state with the mutex free, running or stopped, and for every unfinished launch, a run without a new start ends with the link stopped, all repair goroutines returned and the launch unfinished. |
| `LinkLaunches.AbandonedLaunchNeverFinishes` | internal/argotunnel/tunnel.go:339-350 | A launch unfinished when all repair goroutines have returned stays so in every run without a new start. |
| `LinkLaunches.OneStopCanAbandonALaunch` | internal/argotunnel/tunnel.go:361-363 | One start and one stop can lead there. |
| `LinkSafety.InvKept` | internal/argotunnel/tunnel.go:146-184 | Every step of every thread keeps the mutex, channel, counting, capture and generation invariants. |
| `LinkSafety.ChannelsKept` | internal/argotunnel/tunnel.go:159-182 | Every step keeps the set of open channels exactly the current ones, program point by program point. |
| `LinkSafety.CountsKept` | internal/argotunnel/tunnel.go:331-416 | Every step keeps the conservation of launches, reports and repairers. |
| `LinkSafety.GenerationsKept` | internal/argotunnel/tunnel.go:403-410 | Every step keeps each launch on a stop channel of its own. |
| `OriginSecrets.Validate` | internal/cloudflare/originsecret.go:58-68 | No error exactly if every group is well formed. |
| `OriginSecrets.ValidateGroup` | internal/cloudflare/originsecret.go:77-102 | No error exactly if there are hosts, each is "*", a host name of at most 253 characters (labels as in section 2.1 of RFC 1123, in lower case, with dots between) or "*." and such labels, and the secret is well formed. |
| `OriginSecrets.ValidateSecret` | internal/cloudflare/originsecret.go:111-130 | No error exactly if the name has 1 to 63 letters, digits, "-", "_" and ".", the latter three not at the ends, and the namespace is a host name. |
| `OriginSecrets.Compile` | internal/argotunnel/options.go:74-102 | Every host is mapped to the secret of the last group that lists it, every domain to that of the last group with "*." and the domain, "*" to that of the last group with it; indexing crashes exactly if some host is empty. |
| `OriginSecrets.PutRepresents` | internal/argotunnel/options.go:84-92 | Storing one line keeps the maps equal to the searches. |
| `OriginSecrets.CompiledIsSearched` | internal/argotunnel/informer.go:144-161 | A look-up in the maps of a validated configuration gives the secret of the last group that lists the host; else of the last group with a wildcard that is the host but for its first label; else of the last group with "*"; else the earlier default. |
| `OriginSecrets.WildcardTakesOneLabel` | internal/argotunnel/informer.go:155-161 | A valid wildcard matches exactly the hosts with one non-empty, dot-free label before its domain. |
| `OriginSecrets.ValidatedCompiles` | internal/argotunnel/options.go:84-92 | In a validated configuration every host is valid and not empty, and a wildcard is longer than "*.", so every index stays in range. |
| `OriginSecrets.Options.SecretGroups` | internal/argotunnel/options.go:71-107 | The maps are replaced, by groups as for `Compile`; the default becomes that of the last group with "*", or stays if none has it. |
| `OriginSecrets.Options.Collect` | cmd/argot/main.go:186-188 | In the program's order of options every host of a validated configuration resolves to the last group that lists it, else the last group with a wildcard it fits, else the explicit default, else the last group with "*". |
| `Tags.ParseTags` | internal/argotunnel/tunnel.go:255-294 | For all texts and limits the scanner with its size estimate returns what splitting at commas and at the first "=" gives. |
| `Tags.ParseExact` | internal/argotunnel/tunnel.go:255-294 | Without a limit the tags are exactly those held by a segment between commas that is the last to hold a tag of that name, each name once. |
| `Tags.PairExact` | internal/argotunnel/tunnel.go:268-281 | A segment gives a tag if and only if it is the name, "=" and the value, with no "=" in the name and both at least two long. |
| `Tags.Scan` | internal/argotunnel/tunnel.go:264-284 | The outer index loop collects exactly the segments up to the capacity, in table and order. |
| `Tags.StoreSegment` | internal/argotunnel/tunnel.go:268-281 | The inner loop stores the pair cut at the first "=" if both sides are at least two long. |
| `Tags.EstimateIsHarmless` | internal/argotunnel/tunnel.go:260-263 | The estimate (length + 1) / 4 never changes the result. |
| `Tags.EstimateLeavesRoom` | internal/argotunnel/tunnel.go:261-263 | Kept segments need six characters each, less one, so the estimate is never too small. |
| `Tags.LastValueWins` | internal/argotunnel/tunnel.go:273-277 | Without a limit a name has the value of its last kept pair, and is absent if there is none. |
| `Tags.StopsAtTheLimit` | internal/argotunnel/tunnel.go:266-284 | With a limit the result is the unlimited one of the segments up to and including the one that brings the n-th distinct name, or of all segments if none does. |
| `Tags.CollectKeepsPlaces` | internal/argotunnel/tunnel.go:266-284 | Names are unique, keep the place where first seen, and do not exceed the limit. |
| `Tags.RoundTrip` | internal/argotunnel/tunnel.go:255-294 | Writing out distinct well-formed tags and parsing them, without a limit or with a large enough one, gives the same list. |
| `Keys.ResourceKeyRoundTrip` | internal/argotunnel/queue.go:110-149 | A queue key gives back kind, namespace (empty too) and name, if these are free of slashes. |
| `Keys.MetaPartIsItemKey` | internal/argotunnel/queue.go:122-149 | What the worker takes for the cache key is the cache key if and only if the namespace is not empty. |
| `Keys.ItemKeyRoundTrip` | internal/argotunnel/informer.go:163-166 | A cache key gives back namespace and name. |
| `Keys.KeysAreInjective` | internal/argotunnel/router.go:46-46 | Equal cache, router or queue keys name the same object. |
| `Backoff.BaseExact` | internal/argotunnel/tunnel.go:418-422 | Without overflow the delay is 2^(step mod steps) times the configured one, between that and the top of the cycle. |
| `Backoff.SafeIff` | internal/argotunnel/tunnel.go:418-422 | Without jitter the delay never falls below the configured one if and only if the largest step fits in 64 bits. |
| `Backoff.DelayExact` | internal/argotunnel/tunnel.go:418-427 | Without overflow the delay waited is exactly 2^(step mod steps) times the configured one plus random times jitter times delay, rounded down; with no jitter exactly the former. |
| `Backoff.DelayBounds` | internal/argotunnel/tunnel.go:418-427 | With jitter the delay lies between the configured one and the top of the cycle plus jitter times delay, for every random value. |
| `Backoff.Repeats` | internal/argotunnel/tunnel.go:409-421 | For the same random value the delay waited is the same `steps` repairs later, overflow or not. |
| `Backoff.CycleSum` | internal/argotunnel/tunnel.go:376-421 | Any `steps` consecutive repairs without jitter wait (2^steps - 1) times the delay in all, wherever they begin. |
| `Retry.Worker.ProcessNextItem` | internal/argotunnel/worker.go:42-57 | One key is handled, then forgotten or put back with its count raised; handlings so far plus handlings to come are conserved for every key, and the attempts left in the queue go down. |
| `Retry.Worker.Work` | internal/argotunnel/worker.go:37-40 | The loop ends; a failing key is handled max(limit - requeues, 0) + 1 times, any other once; all their counts are reset. |
| `Retry.Worker.AddedOnce` | internal/argotunnel/worker.go:49-55 | A key added once that always fails is handled max(limit, 0) + 1 times and then forgotten with its count reset. |
| `Retry.AccountKept` | internal/argotunnel/worker.go:49-55 | Handling a key moves one attempt from the future to the past and changes no other key's account. |
| `Retry.AttemptUsed` | internal/argotunnel/worker.go:49-55 | Each handling lowers the attempts left in the queue, counted by limit minus requeues. |

## Left out

- Deletion tombstones: a missed delete reaches the filters as another type and is dropped there, or yields a key without its kind; the machine's deletes carry the object.
- Objects with an empty name are never stored by the machine.
- Convergence.ConvergesFor: says nothing about routes of names that left the class and were not taken back; whether such a route stays depends on when the worker looks, and `Leaving.RouteCanStayIff` says when it can.
- Handler errors do not occur in the reconciliation machine; retries are modelled on their own, in `Retry`, where the set of failing keys is fixed during a run of the loop and rate-limit delays are immediate.
- The reconciliation machine uses structured keys instead of text, as `Keys` justifies for names without slashes, and treats the index as a query whose answer is what `SecretIndex` and `ServiceIndex` compute.
- The link life cycle, the event handlers and the worker's handling of a key are state machines over values, not classes, since their point is interleaving. The repair counter is unbounded.
- Router.SyncTunnelRouter.UpdateRoute: routes and links are values, a link being told apart by its number; aliasing between the caller's route and the stored one is not modelled. The caller's links are new and the stored ones known, which `Ownership.OwnedAlways` provides.
- Router.SyncTunnelRouter.Halt: a separate last operation; the translator's `run` never reaches the router's.
- The X.509 and PEM check of a certificate is an arbitrary function of certificate and host, and the parsing of annotations gives an arbitrary value per ingress.
- OriginSecrets.ValidateGroup: one fault per bad host instead of a list of messages.
- Backoff.DelayBounds: jitter is over the reals, without floating-point rounding.
- Tags.ParseTags: a character stands for a byte.
- `GetEndpointsPort`, metrics, logging, version, HTTP and TLS settings, client identifiers, flag parsing and wiring: they bear on none of the properties or would add only easy members.
