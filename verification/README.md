# Verification of the OpenBMC web application

The application caches D-Bus objects as entities, refreshes them from worker threads and answers GraphQL queries over
the cache. This project models five of its parts in Dafny and proves what they promise.

* **GraphQL evaluation.** `GraphqlHandler` is the event-driven machine: builders with parent links whose fragments are
  extended in place while the query is walked. `GraphqlSpec` says what a query means by recursion over the selection
  tree, and the machine is proved equal to the recursion for every query. `GraphqlAnswers` says what stands where in the
  JSON of the answer, `GraphqlSelections` which fields a selection set comes to, `GraphqlProperties` how large an answer
  is. The machine reads the stored entities at every visit, and each read resets and joins them in place;
  `EntityManagers` shows that all reads of a query, and of all later ones, show one snapshot, and `EntityListings` what
  that snapshot holds. Inline fragments belong to the enclosing object. An object repeated under one key keeps its first
  binding, as `push_back` on a JSON object does.
* **Entity cache.** `EntitySpec` says on values what filling, association lists, default values and link rules do.
  `EntityCache`, `LinkRules`, `EntityStores` and `Entities` are the shared mutable objects, proved against it.
  `CacheBatch` and `CacheChildren` show that a cache filled by signals holds what one batch fill would, `CacheFormats`
  what formatters make of the values; `EntityLinks` and `EntityReads` that a read is a join that does not depend on
  order and can be repeated; `SensorStatus` and `ServerVersions` follow a status and a version from the signals to the
  answer, `SensorReads` and `ServerReads` to the shared objects, `SensorRuns` over whole runs in which signals and
  queries alternate in any order, and `QueryStatus` to the JSON of a query; `CacheRuns` shows that no run changes the
  value of the shared not-available object. What a fill or a read that throws leaves behind is stated as exactly as what
  one that succeeds leaves.
* **Brokers.** `Brokers` is the readiness test, `Scheduler` the interleaving of any number of worker threads.
* **Sessions.** `Sessions` is the store with its rate-limited sweep, `SessionTiming` its behaviour over every run,
  `Configurations` what is written to and merged from the configuration file.
* **Codecs.** `Base64` and `UrlEncode`, against the encoder and the decoder of RFC 4648 and RFC 3986.

Exceptions are results: a method returns `false`, an error or `null` where the source throws or returns a null pointer.
A clock reading, the time between two readings, a thread schedule, the order of a hash map, the hash function and every
D-Bus answer are arbitrary. A `std::map` is iterated by ascending key, a hash map in any order. The hash of an instance
is a function of its service and its path; distinct hashes are a precondition where they are needed, and only for the
paths of one provider object and the endpoints of its current list.

Where the code and its comments differ the model follows the code. The broker's constructor documents a zero timeout as
a single shot; a completion less than a second from the epoch is recorded as time zero and reads as never having run.
`Brokers.SingleShotExactly` says exactly when that happens, and `Scheduler.SingleShotRunsOnce` and
`Scheduler.RunsAreSpaced` hold for every clock with that one exception. A login may return a session that has been idle
for up to a second more than the timeout, since the sweep runs at most once a second; `SessionTiming.LoginBound` has the
bound. A base64 input whose last code has unused bits set decodes without padding and is refused with it;
`Base64.EncodeOfDecode` has the condition under which the encoding comes back.

## Model

| member | source | states |
|---|---|---|
| `JsonValues.EmplaceMeaning` | src/core/route/handlers/graphql_handler.cpp:302-329 | pushing bindings one by one onto a JSON object keeps what was bound and gives every new key its first value |
| `Orders.SortedStringsAscend` | src/core/route/handlers/graphql_handler.cpp:359-362 | the objects of a fragment are taken by ascending key |
| `Orders.SortedAtRank` | src/core/route/handlers/graphql_handler.cpp:359-362 | in sorted order a key stands at the number of keys that come before it lexicographically |
| `JsonValues.FirstIndexIs` | src/core/route/handlers/graphql_handler.cpp:302-304 | the binding that stays is the one at the first position of its key |
| `GraphqlHandler.GqlObjectBuild.Root` | src/core/route/handlers/graphql_handler.hpp:79-82 | the root builder has no entity and one empty object under the operation's name |
| `GraphqlHandler.GqlObjectBuild.constructor` | src/core/route/handlers/graphql_handler.cpp:28-48 | a builder starts with one empty object for each key of the instances that a read of the entity shows |
| `GraphqlHandler.GqlObjectBuild.SupplementField` | src/core/route/handlers/graphql_handler.cpp:286-319 | a scalar that is a member is added to the object of every instance, as a read made at this point shows it, unless its key is bound; otherwise the field-not-found error is returned and nothing changes; `GraphqlAnswers.ResponseMeaning` says which value it is |
| `GraphqlHandler.GqlObjectBuild.SupplementChild` | src/core/route/handlers/graphql_handler.cpp:321-337 | a child fragment is broadcast to every object of the builder, first binding winning |
| `GraphqlHandler.GqlObjectBuild.GetFragment` | src/core/route/handlers/graphql_handler.cpp:339-372 | the fragment is an empty object, one object or an array in key order for none, one or more instances |
| `GraphqlHandler.GqlObjectBuild.PushFragmentToParent` | src/core/route/handlers/graphql_handler.cpp:389-398 | the finished fragment goes to the parent under the alias or the name, and to nobody else |
| `GraphqlHandler.GqlQueryVisitor.VisitField` | src/core/route/handlers/graphql_handler.cpp:117-182 | entering an object pushes a builder with the old one as parent and leaves every ancestor unchanged; a scalar is looked up under its alias; an unknown name is the error the reference gives |
| `GraphqlHandler.GqlQueryVisitor.EndVisitField` | src/core/route/handlers/graphql_handler.cpp:184-194 | leaving an object restores the builder below, whose objects gain at most the one response key |
| `GraphqlHandler.GqlQueryVisitor.Finish` | src/core/route/handlers/graphql_handler.cpp:196-199 | at the root the document is the root's one object |
| `GraphqlHandler.AcceptField` | src/core/route/handlers/graphql_handler.cpp:117-194 | walking one field with all its selections changes only the current builder, by the field of the reference, and fails with the reference's error |
| `GraphqlHandler.AcceptSelection` | src/core/route/handlers/graphql_handler.cpp:117-194 | the visitor has no callback for fragments: an inline fragment adds its fields to the current builder, a fragment spread adds nothing |
| `GraphqlHandler.AcceptSelections` | src/core/route/handlers/graphql_handler.cpp:117-194 | walking a selection set restores the builder chain and adds every field of the reference, or stops with its first error |
| `GraphqlHandler.VisitQuery` | src/core/route/handlers/graphql_handler.cpp:50-70 | the life of one query visitor, reading the store in place at every visit, gives exactly the recursive result of the query over one snapshot |
| `GraphqlHandler.ObmcGqlVisitor.VisitOperationDefinition` | src/core/route/handlers/graphql_handler.cpp:50-70 | an operation other than a query, or one with variables, is not supported; a query fills the entry of that name |
| `GraphqlHandler.AcceptOperations` | src/core/route/handlers/graphql_handler.cpp:50-77 | operations are visited in order until one fails |
| `GraphqlHandler.Run` | src/core/route/handlers/graphql_handler.cpp:256-283 | for every document, parsed or not, the response is the one the recursive semantics defines over the snapshot of the store, whose JSON `GraphqlAnswers.ResponseMeaning` describes, and the store still shows that snapshot afterwards |
| `GraphqlAnswers.ResponseMeaning` | src/core/route/handlers/graphql_handler.cpp:256-372 | the JSON of every response: `data` exactly if all operations are queries without variables over names that exist, then under `query` an object that binds every key to the first field that has it: a scalar to that member of the instance, or `N/A` if it is missing, an object to an empty object, one object or the array of all instances by ascending key; otherwise `error` with the error of the first operation that fails |
| `GraphqlAnswers.AnswerMeaning` | src/core/route/handlers/graphql_handler.cpp:339-372 | the same for one object at any depth: each instance stands at the number of keys before its own and shows its own members |
| `GraphqlAnswers.ErrorMeaning` | src/core/route/handlers/graphql_handler.cpp:139-163 | a selection set fails with the error of the first field whose name does not exist, found by descending into the first field that fails |
| `GraphqlSelections.FieldsMeaning` | src/core/route/handlers/graphql_handler.cpp:117-194 | an object has one field for each path through inline fragments to a field of its selection set, in the order of the text, and no others |
| `EntityManagers.EntityManager.GetInstances` | src/core/entity/entity.cpp:134-158 | a read resets and joins the stored instances and resets the providers in place, returns what the snapshot says, and leaves the snapshot as it is; `EntityListings.SnapshotLists` says what that is |
| `EntityManagers.Store.ReadKeepsSnapshot` | src/core/entity/entity.cpp:134-158 | a read of one entity changes neither whether nor what any later read of any entity returns |
| `EntityListings.SnapshotLists` | src/core/entity/entity.cpp:134-158 | the snapshot of an entity lists every instance and every child that the instance does not hide, once, by the hash of the instance and then of the node, each under its own hash with exactly its members and their values |
| `EntityListings.EverythingIsListed` | src/core/entity/entity.cpp:134-158 | the same of any map of instances, and of the members that a read of shared instances returns |
| `EntityListings.ListedCount` | src/core/entity/entity.cpp:139-155 | there are as many entries as instances and visible children |
| `EntityListings.ReadIsInPlace` | src/core/entity/entity.cpp:139-150 | what the store holds after a read is what the read shows |
| `EntityListings.ProvidersAreReset` | src/core/entity/entity.cpp:197-204 | a read sets the defaults of the instances of every provider it asks, and leaves their children |
| `GraphqlFragments.WithFieldsMeaning` | src/core/route/handlers/graphql_handler.cpp:286-337 | adding the fields of a selection set one by one gives every instance its recursive object |
| `GraphqlFragments.ShapeMeaning` | src/core/route/handlers/graphql_handler.cpp:339-372 | the shape of a finished fragment is the recursive value of the object |
| `GraphqlProperties.ErrorIsFirstFailure` | src/core/route/handlers/graphql_handler.cpp:139-163 | a query fails with the first name, in depth-first order, that does not resolve |
| `GraphqlProperties.SucceedsIffAllResolve` | src/core/entity/entity.cpp:111-121 | a query succeeds exactly if every object is a registered entity and every scalar a member of its entity |
| `GraphqlProperties.ErrorIgnoresInstances` | src/core/entity/entity.cpp:278-286 | whether and how a query fails does not depend on the instances |
| `GraphqlProperties.ResponseKeys` | src/core/route/handlers/graphql_handler.cpp:256-283 | the response has `error` and no `data` if a lookup fails, otherwise `data` and no `error` |
| `GraphqlProperties.FieldGainsOneKey` | src/core/route/handlers/graphql_handler.cpp:298-329 | a field gives every object at most its one response key and changes no other binding |
| `GraphqlProperties.LaterFieldIgnored` | src/core/route/handlers/graphql_handler.cpp:302-304 | fields are not merged: a later field under a bound key has no effect |
| `GraphqlProperties.SizeLaw` | src/core/route/handlers/graphql_handler.cpp:43-47 | with distinct response keys the number of scalars in an answer is the sum, over scalar selections, of the product of instance counts on the path |
| `GraphqlProperties.SizeOfObject` | src/core/route/handlers/graphql_handler.cpp:345-363 | the same for an object in any of its three shapes |
| `Statuses.HigherIsJoin` | src/status_provider.hpp:80-109 | the higher of two statuses exists exactly if both are known in some letter case; it is their maximum, in canonical spelling |
| `Statuses.HigherInWords` | src/status_provider.hpp:80-109 | by the words themselves, in any letter case: `Critical` exactly if one is critical and both are known, `Warning` exactly if one is a warning and none critical, `OK` exactly if both are |
| `Statuses.HigherIsSemilattice` | src/status_provider.hpp:87-101 | commutative, associative and idempotent, with `OK` at the bottom |
| `Queries.ServerIsInjective` | src/system_queries.hpp:65-105 | no two properties of the server dictionary fill the same member |
| `Queries.ChassisIsInjective` | src/system_queries.hpp:177-205 | the same for the chassis |
| `Queries.BaseboardIsInjective` | src/system_queries.hpp:273-313 | the same for the baseboard |
| `Queries.SensorsIsInjective` | src/system_queries.hpp:382-431 | the same for the sensors |
| `Queries.StatusIsInjective` | src/status_provider.hpp:48-78 | the same for the two-level association dictionary |
| `Queries.VersionIsInjective` | src/version_provider.hpp:71-90 | the same for the software versions |
| `CacheBatch.FillSucceeds` | src/core/entity/dbus_query.cpp:276-299 | a fill throws exactly if a formatter refuses one of the properties it uses, of the instance or of a child |
| `CacheBatch.HistorySucceeds` | src/core/entity/dbus_query.cpp:366-375 | a history of reports throws exactly if one of them does, whatever their order |
| `CacheBatch.OneMoreReport` | src/core/entity/dbus_query.cpp:276-299 | a fill gives the member of a reported scalar property its formatted value and leaves every other member; `CacheFormats.FormattedIsChain` says what that value is |
| `CacheBatch.MembersHoldLast` | src/core/entity/dbus_query.cpp:404-415 | after any history every filled member holds the formatted last value of its property, or what it held at first; see `CacheFormats.MemberIsEndOfChain` |
| `CacheFormats.MemberIsEndOfChain` | src/core/entity/dbus_query.cpp:597-622 | after any history a member holds the end of the chain in which each formatter of its property takes what the one before it returned, beginning with the last scalar reported |
| `CacheFormats.UnreportedStays` | src/core/entity/dbus_query.cpp:287-292 | a member for whose property no scalar was reported is as it was at first |
| `CacheFormats.FormattedIsChain` | src/core/entity/dbus_query.cpp:597-622 | a scalar is formatted to the end of its chain, and refused exactly if a formatter in it refuses |
| `CacheFormats.ReportIsRefused` | src/core/entity/dbus_query.cpp:276-299 | a report throws exactly if the chain of a used scalar breaks, a used list has formatters, or a used list has an element that would be refused as a property of a child |
| `CacheFormats.SensorShowsUnit` | src/system_queries.hpp:506-529 | a sensor shows the label of the last unit it reported, `Unit` for an unknown one |
| `CacheFormats.ChassisShowsType` | src/system_queries.hpp:219-244 | chassis type `23` is shown as `Rack Mount`, any other as `Other` |
| `CacheFormats.StringsAreRequired` | src/system_queries.hpp:506-529 | the shipped formatters refuse exactly values that are no strings |
| `CacheFormats.SensorShowsReadings` | src/system_queries.hpp:382-431 | reading and thresholds of a sensor are the last ones reported, each in its own member |
| `CacheFormats.ServerShowsAssets` | src/system_queries.hpp:65-105 | so are the asset members of a server |
| `CacheFormats.BaseboardShowsAssets` | src/system_queries.hpp:273-313 | and of a baseboard |
| `CacheFormats.ChassisShowsAssets` | src/system_queries.hpp:177-205 | and of a chassis |
| `CacheBatch.OtherMembersStay` | src/core/entity/dbus_query.cpp:287-298 | a member that no property fills never changes |
| `CacheBatch.IncrementalEqualsBatch` | src/core/entity/dbus_query.cpp:260-299 | with an injective dictionary, an instance after any history of fills and signals has the fields of one filled once per interface, in any order, with the overlaid properties, and that fill succeeds; a used property that was ever a scalar has to end as one |
| `CacheBatch.FixedTypesAreLast` | src/core/entity/dbus_query.cpp:495-526 | properties of fixed type meet that condition |
| `CacheChildren.ChildrenOfLastList` | src/core/entity/dbus_query.cpp:461-493 | where one property brings the association lists, the children after any history are those of its last list, or the initial ones |
| `CacheChildren.VisibleOfLastList` | src/core/entity/dbus_query.cpp:431-493 | the same up to the hidden child, whatever lists of strings and doubles come in between |
| `CacheChildren.ValuesAreHidden` | src/core/entity/dbus_query.cpp:431-449 | the children captured from a list of strings or doubles are hidden by the instance itself: no read returns them |
| `CacheFormats.ValuesAreCaptured` | src/core/entity/dbus_query.cpp:431-449 | of a list of strings or doubles the last one stays, formatted, in a child under the hash of the instance; the other children stay as they are |
| `CacheChildren.IncrementalEqualsBatchWithChildren` | src/core/entity/dbus_query.cpp:260-299 | where one property brings the association lists, as in every shipped dictionary, an instance after any history shows, with all the children a read returns, what one filled once per interface with the overlaid properties shows; without lists of strings or doubles the two are equal |
| `EntityLinks.ApplyShape` | src/system_queries.hpp:433-468 | one link changes at most the status, as the status order says, and the two versions |
| `EntityLinks.FoldShape` | src/core/entity/entity.cpp:197-204 | all links together: the last versions overlay the members and the status is the fold; it fails exactly if the status fold does |
| `EntityLinks.SupplementedIsFold` | src/core/entity/entity.cpp:147-150 | joining with all providers is one fold over all their supplements |
| `EntityLinks.StatusStaysMissing` | src/core/entity/dbus_query.cpp:307-319 | a target without a status never gets one, since the not-available value is no status |
| `EntityLinks.StatusIsJoin` | src/status_provider.hpp:94-101 | the folded status exists exactly if every relevant one is known, and is then the least upper bound in canonical spelling |
| `EntityLinks.StatusIgnoresOrder` | src/core/entity/entity.cpp:197-204 | the status does not depend on the order or the repetition of supplements |
| `EntityLinks.StatusIsIdempotent` | src/system_queries.hpp:459-460 | raising a status by the same supplements again changes nothing |
| `EntityLinks.LinkTwice` | src/core/entity/entity.cpp:140-150 | resetting the defaults and running every link again gives what the first time gave, whatever the defaults |
| `EntityReads.SupplementTwice` | src/core/entity/entity.cpp:197-204 | the same through the providers, whose own defaults have been reset in between |
| `EntityReads.ReadTwice` | src/core/entity/entity.cpp:134-158 | a second read, of any entity with any providers, leaves every instance of the entity and of its providers as it is |
| `EntityReads.ManyReadsAreOne` | src/core/route/handlers/graphql_handler.cpp:298-356 | however often a query reads an entity, it sees what one read shows, or the first read throws |
| `EntityReads.SupplementsMeaning` | src/core/entity/entity.cpp:197-204 | what a provider supplies: the members of its instances, defaults reset, and of their children, one under the instance's own hash hidden |
| `SensorStatus.ChildOfAssociation` | src/core/entity/dbus_query.cpp:473-491 | a child carries the source of its association as status and the endpoint as path and causer |
| `SensorStatus.ChildrenOfList` | src/core/entity/dbus_query.cpp:461-493 | the children of a list are, for every endpoint, its last association, and nothing else |
| `SensorStatus.ReachedExists` | src/core/entity/dbus_query.cpp:461-493 | after any history of updates an object has the children of its last list alone |
| `SensorStatus.HistoriesExist` | src/core/entity/dbus_query.cpp:366-375 | association updates never throw |
| `SensorStatus.UpdateShowsHistory` | src/core/entity/dbus_query.cpp:461-493 | an association update is recorded by an object in any state that reads have left it in |
| `SensorStatus.ReadKeepsHistories` | src/core/entity/entity.cpp:134-158 | a read of the provider forgets nothing |
| `SensorStatus.FoldIsMaximum` | src/status_provider.hpp:80-109 | in terms of the histories, at any time between reads and signals: the status fold succeeds exactly if every source in force is a known word, and yields `Critical` if one is critical, otherwise `Warning` if one is a warning, otherwise `OK` |
| `SensorStatus.SensorReportsMaximum` | src/system_queries.hpp:433-468 | end to end: after any history of association updates, and of reads in between, reading a sensor succeeds exactly if all sources in force for it are known words, and reports the worst of them, or `OK`; a source is in force if it stands in the last association for the path in the last list of an object |
| `SensorStatus.SensorStaysPlain` | src/core/entity/dbus_query.cpp:366-375 | whatever an object with a sensor reports, lists that its dictionary ignores included, and whatever has happened to it before, the sensor keeps its path and has no children, so the end-to-end result applies |
| `SensorStatus.ReadKeepsSensor` | src/core/entity/entity.cpp:134-158 | a read keeps the path of a sensor and gives it no children, also a read that throws |
| `SensorStatus.ReportKeepsSensor` | src/core/entity/dbus_query.cpp:276-299 | so does a report, also one that a formatter refuses |
| `SensorReads.GetSensors` | src/core/entity/entity.cpp:134-158 | end to end on the shared objects, before and after any other reads and signals: reading the sensors succeeds exactly if all sources in force for them are known; every sensor is returned and its status field reads `Critical`, `Warning` or `OK`, whichever is the worst in force; afterwards, also after an exception, everything is as the next read or signal needs it |
| `SensorRuns.SignalStatus` | src/core/entity/dbus_query.cpp:366-375 | an association signal adds one list to the history of its object and touches no other object |
| `SensorRuns.SignalSensor` | src/core/entity/dbus_query.cpp:366-375 | a signal about a sensor, accepted or refused, leaves a sensor at its path and the provider alone |
| `SensorRuns.Serve` | src/core/entity/entity.cpp:134-158 | in every run of signals and queries in any order, every query is answered with the worst of the sources then in force for each sensor, or `OK`, and is refused exactly if one of them is unknown |
| `QueryStatus.SensorsAreReadable` | src/core/entity/entity.cpp:134-158 | an entity of sensors in the store can be read exactly if all sources in force are known |
| `QueryStatus.SnapshotShowsStatus` | src/core/entity/entity.cpp:134-158 | what a query sees has an entry for every sensor, under its hash, whose status is the worst source in force |
| `QueryStatus.AnswerShowsStatus` | src/core/route/handlers/graphql_handler.cpp:298-307 | wherever a query asks for the status, the object of each sensor in the answer reads that word |
| `ServerVersions.ServerReportsVersions` | src/system_queries.hpp:107-145 | joining a server with the software versions never fails, sets the two version members at most and leaves the rest |
| `ServerVersions.LastVersionWins` | src/system_queries.hpp:135-137 | of several software objects with one purpose the last one read determines the version |
| `ServerVersions.NoVersionWithoutProvider` | src/system_queries.hpp:122-127 | without an object of that purpose the version is not set |
| `ServerReads.ReportShowsReports` | src/core/entity/dbus_query.cpp:366-375 | a software object records every report, whenever it comes; none is refused |
| `ServerReads.VersionsAre` | src/system_queries.hpp:107-145 | for either purpose the versions brought are those of the last object whose latest purpose it is, and there is none without such an object |
| `ServerReads.VersionInWords` | src/version_provider.hpp:37-66 | in the words of the reports: the BMC version follows the purpose `…VersionPurpose.BMC`, the BIOS version `…VersionPurpose.Host`, each the last version reported by the last object with that purpose |
| `ServerReads.ServersAreRead` | src/system_queries.hpp:107-145 | reading servers succeeds whatever the software objects have reported and changes the two version members only |
| `ServerReads.GetServers` | src/core/entity/entity.cpp:134-158 | end to end on the shared objects: a read never fails; every server then shows as `BmcVersion` the last version reported by the last software object, by hash, that reports the BMC purpose, as `BiosVersion` that for the host purpose, and keeps what it showed if there is none; the software objects stay as they are |
| `EntityCache.DBusInstance.constructor` | src/core/entity/dbus_query.hpp:90-110 | a new instance has the two meta members and no children |
| `EntityCache.DBusInstance.Supplement` | src/core/entity/dbus_query.cpp:392-402 | a new member is added; an existing one is refused and nothing changes |
| `EntityCache.DBusInstance.SupplementOrUpdate` | src/core/entity/dbus_query.cpp:404-415 | the member holds the value afterwards and no other member changes, whether its field object existed or not |
| `EntityCache.DBusInstance.InitDefaultFieldsValue` | src/core/entity/dbus_query.cpp:541-549 | the defaults of the query overlay the members; the children stay |
| `EntityCache.DBusInstance.CaptureDBusAssociations` | src/core/entity/dbus_query.cpp:461-493 | the children are replaced by those of the list, all of them new objects; if the list is refused halfway, by those captured so far |
| `EntityCache.DBusInstance.CaptureComplexDBusProperty` | src/core/entity/dbus_query.cpp:431-449 | every element of a list of strings or doubles becomes a new child under the hash of the instance, up to the first that is refused; the other children stay |
| `EntityCache.DBusInstance.ResolveDBusVariant` | src/core/entity/dbus_query.cpp:495-526 | a scalar sets a member, associations replace the children, any other list is captured as children, as the reference says; it throws when the reference does and leaves exactly what had been done by then |
| `EntityCache.DBusInstance.FillMembers` | src/core/entity/dbus_query.cpp:276-299 | the instance shows the reference's value after the fill, or the fill throws when the reference does and the members before the refused one hold their new values |
| `LinkRules.GetHigherStatus` | src/status_provider.hpp:80-109 | the table lookup and comparison compute the reference's status |
| `LinkRules.LinkStatus` | src/system_queries.hpp:433-468 | the field object that the lookup answers is written as the reference says; the shared not-available object still reads `N/A` |
| `LinkRules.LinkVersions` | src/system_queries.hpp:107-145 | the target shows the reference's members; only its own field objects are written |
| `CacheRuns.Perform` | src/core/entity/dbus_query.cpp:276-319 | one new instance, fill, reset or link, also one that throws, keeps the ownership of field objects and the shared object's value |
| `CacheRuns.Run` | src/core/entity/dbus_query.cpp:451-459 | the shared not-available object reads `N/A` after every run, from no instances on, in which instances are added, filled, reset and linked |
| `EntityStores.SupplementProvider.GetInstances` | src/core/entity/entity.cpp:134-158 | a provider's instances are reset and its nodes are returned with the members of the reference, in its order; nodes outside are not touched |
| `EntityStores.SupplementProvider.SupplementInstance` | src/core/entity/entity.cpp:197-204 | the target is joined with every node of the provider, as the reference's fold says, or the exception is reported; the provider shows its values reset |
| `EntityStores.SupplementProvider.SetInstances` | src/core/entity/entity.cpp:160-168 | of instances with one hash the last stays, and nothing else is kept |
| `Entities.Entity.SetInstances` | src/core/entity/entity.cpp:160-168 | the same for an entity |
| `Entities.Entity.GetInstances` | src/core/entity/entity.cpp:134-158 | the instances show the reference's values after a read, or, if it throws, those of the reference up to the node that is refused; it throws exactly if the reference does; the returned nodes are those of the reference in its order; the provider serves what it served |
| `Entities.GetInstancesTwice` | src/core/entity/entity.cpp:134-158 | if a read succeeds so does the next; it returns the same nodes in the same order and all instances show what they showed |
| `Entities.SupplementList` | src/core/entity/entity.cpp:145-155 | the nodes of an instance are joined one after the other until one fails; a node already joined is not changed by the others |
| `Entities.SuppliesReference` | src/core/entity/entity.cpp:197-204 | what a provider of shared objects brings to a read is what the reference says |
| `Entities.ReadIsReference` | src/core/entity/entity.cpp:134-158 | reading the shared instances of a store is reading them as the reference does, with the same exceptions and the same values left behind by them |
| `Brokers.Broker.SetExecutionTime` | src/core/broker/broker.hpp:93-97 | from the recorded completion on the broker is never due before its timeout and always due a second after it, and a single shot is never due again, unless the completion was less than a second from the epoch; then it is due at once |
| `Brokers.ReadyWindow` | src/core/broker/broker.hpp:82-90 | the same for the readiness test on whole seconds: never early but for that one case, less than a second late |
| `Brokers.SingleShotExactly` | src/core/broker/broker.hpp:84-89 | a zero timeout allows another run exactly if the completion was less than a second from the epoch |
| `Brokers.HasReadyTask` | src/core/broker/dbus_broker.cpp:198-208 | the answer is yes exactly if some broker of the list is due when its turn comes |
| `Scheduler.StepKeepsInv` | src/core/broker/dbus_broker.cpp:140-168 | every step of every thread keeps locks, program counters and run histories consistent, and no thread leaves its loop while `active` holds |
| `Scheduler.RunKeepsInv` | src/core/broker/dbus_broker.cpp:140-168 | so does every interleaving |
| `Scheduler.MutualExclusion` | src/core/broker/dbus_broker.cpp:33-39 | in every reachable state, on any clock, at most one thread is inside a broker's section |
| `Scheduler.ExitedOnlyWhenTerminated` | src/core/broker/dbus_broker.cpp:140-168 | in every interleaving a thread has left its loop only if `terminate` was called |
| `Scheduler.RoundServesAll` | src/core/broker/dbus_broker.cpp:140-168 | from every reachable active state a thread at the head of its loop comes back there in a bounded number of its own steps; on the way each broker that is free and due is run exactly once, and no other is |
| `Scheduler.SingleShotRunsOnce` | src/core/broker/dbus_broker.cpp:30-78 | a zero-timeout broker is started again only after a completion less than a second from the epoch; on a clock past its first second it runs at most once, even if many threads see it ready |
| `Scheduler.RunsAreSpaced` | src/core/broker/dbus_broker.cpp:41-45 | a periodic broker never starts a run until strictly more than its timeout after the previous completion, but for that case |
| `Scheduler.ReadyInTime` | src/core/broker/broker.hpp:82-90 | it is due no later than its timeout plus one second after it |
| `Scheduler.ThreadsTerminate` | src/core/broker/dbus_broker.cpp:119-128 | after termination is requested a thread takes a bounded number of further steps |
| `Sessions.UserSession.FromJson` | src/service/session.hpp:85-149 | a record restores a session exactly if it is an object with four non-empty strings; unknown and non-string elements are skipped, in any order |
| `Sessions.SessionInWords` | src/service/session.hpp:85-149 | in the words of the JSON: which record restores a session, which key fills which field, and what the other fields are |
| `Sessions.AuthConfigMethods.FromJson` | src/service/session.hpp:181-212 | only boolean values under known keys change a flag |
| `Sessions.FlagsInWords` | src/service/session.hpp:181-212 | in the words of the JSON: a boolean under a flag's key sets it, otherwise it stays |
| `Sessions.SessionStore.constructor` | src/service/session.hpp:338-340 | an empty store with a timeout of an hour |
| `Sessions.SessionStore.ApplySessionTimeouts` | src/service/session.hpp:304-324 | the sweep erases exactly what has been idle for the timeout, in whatever order it iterates, and not more than once a second |
| `Sessions.SessionStore.LoginSessionByToken` | src/service/session.hpp:217-236 | a login sweeps first, finds a session exactly if its token has the right size and survives, and resets that session's timer only |
| `Sessions.SessionStore.UpdateSessionTimeout` | src/service/session.hpp:283-286 | the timeout changes and nothing else |
| `Sessions.SessionStore.EmplaceSession` | src/service/configuration.hpp:149-150 | a session is added under its own token unless the token is taken |
| `SessionTiming.RunKeepsInv` | src/service/session.hpp:304-324 | over every run: a stored timer is the last use, and an erased session had been idle for the smallest timeout in force |
| `SessionTiming.ErasedIffIdle` | src/service/session.hpp:307-317 | an event erases a session exactly if it sweeps and the session was idle for the whole timeout |
| `SessionTiming.SweepsAreSpaced` | src/service/session.hpp:304-311 | the time of the last sweep moves exactly with a query or login more than a second after it |
| `SessionTiming.OtherSizesRefused` | src/service/session.hpp:221-226 | a token that has not 20 characters is never accepted |
| `SessionTiming.LoginBound` | src/service/session.hpp:217-236 | a returned session was idle for less than the timeout of the last sweep plus one second |
| `SessionTiming.LoginWindow` | src/service/session.hpp:217-236 | a session used less than the smallest timeout ago is returned, one idle for a second more than the largest is not |
| `SessionTiming.UnknownTokenRefused` | src/service/session.hpp:227-232 | a token that was never restored is never accepted |
| `Configurations.MergeIsMonotone` | src/service/configuration.hpp:131-152 | merging a file keeps every session of the store with its idle timer |
| `Configurations.FirstRecordWins` | src/service/configuration.hpp:149-150 | of the well-formed records with an unknown token the first one is restored |
| `Configurations.NoRecordNoToken` | src/service/configuration.hpp:138-143 | a token without a well-formed record is not added |
| `Configurations.MergeKeepsKeys` | src/service/configuration.hpp:149-150 | the key of a session stays its token |
| `Configurations.MergeIsIdempotent` | src/service/configuration.hpp:131-152 | merging the same records again changes nothing, whatever the clock shows |
| `Configurations.ReloadIsIdempotent` | src/service/configuration.hpp:99-177 | reading the same file again, any file, leaves uuid, flags, timeout and sessions as they are |
| `Configurations.ReadInWords` | src/service/configuration.hpp:99-177 | what each of the four keys of a file changes and when it changes nothing; an unsigned timeout becomes the signed number with the same 64 bits |
| `Configurations.ElementsInOrder` | src/service/configuration.hpp:131-152 | the elements of an object are visited by ascending key |
| `Configurations.SessionsRoundTrip` | src/service/configuration.hpp:229-249 | writing the sessions of one storage type and reading them into an empty store, keys being tokens, restores exactly the timeout-persistent ones with the four mandatory fields, in any map order |
| `Configurations.AuthRoundTrip` | src/service/configuration.hpp:210-221 | the authentication flags come back |
| `Configurations.LongTermRoundTrip` | src/service/configuration.hpp:253-270 | the whole long-term document comes back: uuid, flags, timeout and sessions |
| `Configurations.CurrentBmcRoundTrip` | src/service/configuration.hpp:271-281 | the document of the current BMC session restores sessions and nothing else |
| `Configurations.ConfigFile.ReadSessions` | src/service/configuration.hpp:131-152 | the records are merged as the reference says; objects already in the store stay the same objects |
| `Configurations.ConfigFile.ReadItem` | src/service/configuration.hpp:99-177 | one element of the file, with the 64-bit reinterpretation of an unsigned timeout |
| `Configurations.ConfigFile.ReadData` | src/service/configuration.hpp:82-186 | the configuration is the reference's after any file, and the exception is raised exactly if no system uuid is known |
| `Configurations.ConfigFile.PopulateSessions` | src/service/configuration.hpp:229-249 | the persisted sessions are written in some order, each once |
| `Configurations.ConfigFile.PopulateAuthConfig` | src/service/configuration.hpp:210-221 | the flags are written under their five keys |
| `Configurations.ConfigFile.Populate` | src/service/configuration.hpp:252-282 | the handlers of a storage type write exactly its document |
| `Base64.Decode` | src/core/helpers/utils.hpp:41-143 | the decoder accepts exactly the language, outputs the decoded bytes and never more than the reserved capacity |
| `Base64.DecodeFromMeaning` | src/core/helpers/utils.hpp:84-140 | from any position the loop decides and decodes the rest of the input |
| `Base64.PlainLanguage` | src/core/helpers/utils.hpp:84-142 | without `=` the input is accepted exactly if all characters are in the alphabet and the length modulo 4 is not 1; the output has three quarters of its length |
| `Base64.TailIgnored` | src/core/helpers/utils.hpp:112-131 | nothing after the first `=` matters |
| `Base64.DecodedGroups` | src/core/helpers/utils.hpp:106-138 | the decoded bytes are those of the 24-bit groups of section 4 of RFC 4648 |
| `Base64.TableOfRfc` | src/core/helpers/utils.hpp:44-65 | the decoding table is the inverse of Table 1 of RFC 4648, character by character |
| `Base64.DecodeOfEncode` | src/core/helpers/utils.hpp:41-143 | decoding the padded or unpadded encoding of any bytes is accepted and gives them back |
| `Base64.EncodeOfDecode` | src/core/helpers/utils.hpp:41-143 | an accepted input is the unpadded encoding of its output exactly if it has no `=` and no unused bit set |
| `Base64.EncodeOfDecodePadded` | src/core/helpers/utils.hpp:109-131 | an accepted input is the padded encoding of its output exactly if it is canonically padded |
| `Base64.DecodeInjective` | src/core/helpers/utils.hpp:41-143 | on canonically padded inputs decoding is injective |
| `UrlEncode.Encode` | src/core/helpers/utils.hpp:166-189 | the loop encodes every byte in turn |
| `UrlEncode.DecodeOfEncode` | src/core/helpers/utils.hpp:166-189 | percent-decoding by section 2.1 of RFC 3986 gives every byte string back |
| `UrlEncode.EncodeInjective` | src/core/helpers/utils.hpp:166-189 | no two byte strings have the same encoding |
| `UrlEncode.EncodedShape` | src/core/helpers/utils.hpp:175-185 | the output consists of unreserved characters and upper-case triples; its length is that of the input plus twice the number of escapes |
| `UrlEncode.EncodedInCharacters` | src/core/helpers/utils.hpp:166-189 | wherever it stands, a letter, a digit or one of `-._~` stays and any other byte becomes `%` and two upper-case hexadecimal digits |

## Left out

- D-Bus calls, matches and connections, FastCGI input and output, files, threads as such: what they deliver is arbitrary.
- The GraphQL and JSON texts: the model starts from the syntax tree and from JSON values. Arguments are ignored as in the code. A document consists of operations; fragment definitions, which no visitor looks at, are not part of it.
- GraphqlHandler.Run: a scalar at the root is a precondition, since the root has no entity to look it up in.
- EntityManagers.EntityManager.GetInstances: the stored instances are values, the objects themselves are those of `Entities`. No refresh or signal comes in the middle of a query, and no unknown status is in force, so that no builder meets an exception.
- Floating-point values are real numbers; their rounding, infinities and text are not modelled.
- Scheduler.RunsAreSpaced: querying, publishing and time-stamping are one step each, and an exception of a query, which ends its thread, is not modelled. The observer thread shares no state with the workers.
- Scheduler.ReadyInTime: a completion before the epoch, whose whole seconds are rounded up, may be ready up to a second later than that.
- Brokers.ReadyWindow: the same.
- SessionTiming.LoginBound: timeouts are positive; their conversion to nanoseconds does not overflow.
- Sessions: `getSessionByUid`, `getUniqueIds` and the authentication decisions built on the store.
- Configurations.ConfigFile.Populate: opening, naming and protecting the file. The revision is written and its value is not used by the reader.
- Entities.Entity.GetInstances: an entity has at most one provider, as every entity of the application; `EntityReads.ReadTwice` and `EntityLinks.FoldShape` hold for any list. Conditions and relations are not wired in the application.
- SensorRuns.Serve: the instances are those of one refresh; the next one replaces them and starts a new run. Used properties of a sensor are scalars, as its dictionary has them.
- ServerReads.GetServers: used properties of a software object are scalars, and a server has no children.
- CacheBatch.IncrementalEqualsBatch: the fields alone; the children are in `CacheChildren.IncrementalEqualsBatchWithChildren`.
- EntityStores.SupplementProvider.GetInstances: providers have no providers of their own. A `std::map` of instances is a map for lookups and its values in key order.
- SensorStatus.SensorReportsMaximum: the endpoint in a list that is the provider's own path is hidden by the provider object, so it says nothing about that path; the name member taken from the last path segment is any other member.
- LinkRules.GetHigherStatus: returns a value where the code returns a reference to a local.
- `DBusObjectEndpoint::getHash`, which combines interface names into a variable it does not initialise, and the relation provider.
- Base64.Decode: shifts and masks are arithmetic on the low bits; characters are bytes.
- UrlEncode.Encode: `isalnum` is that of the C locale.
- HTTP status tables, headers, cookies, routing, logging and dates.
