# Verification of the MyCS client's state machines

This project models the parts of mycloudspace-client that keep state: the space
index and the pool of API clients, the device context that the cloud's answers
update, the connection of a Tailscale client, the device-owner reset and save
machine, and the login. Every remote call, library call, user answer and piece
of tool output is an arbitrary input, so each theorem holds for all answers,
all failures and, where threads are involved, all interleavings.

Objects that the Go code updates in place are classes whose methods follow the
Go functions. Each method is proved to take the object to the state that a
function on values gives, and the theorems are about those functions and about
runs of them.

| files | what they cover |
| --- | --- |
| `SpaceIndex`, `SpaceNodes`, `ForkJoin` | consolidation of local targets and shared spaces, the two indexes, the in-place deletion, the concurrent fetch |
| `PoolModel`, `UnheldReleases`, `ClientPool` | the reference-counted API clients of the same Go type |
| `Notices`, `ConnectModel`, `ConnectOutcome`, `TornWrites`, `TailscaleClient` | the connection state under arbitrary output of the tailscale tool, Connect and Disconnect |
| `MeshModel` | many Tailscale clients over one pool |
| `DeviceModel`, `DeviceContext` | the update of the device context from an authDevice answer |
| `InitializerModel`, `OwnerChanges`, `DeviceRegistrations`, `UserKeys`, `ConfigInitializer` | owner reset, key load and save |
| `LoginModel`, `Login`, `TokenChannels` | login, device authorisation, configuration sync, result channels |

`dafny verify dfyconfig.toml` checks everything.

## What was found

The theorems state what the code does. Where that differs from what one would
expect, the exact condition is proved:

- A shared copy of a locally managed space is removed from the shared list by
  space ID, but kept out of the key index by key. Under another key it stays
  visible and can take over the local target's endpoint entry
  (`SharedCopiesHiddenIff`, `SharedCopyTakesEndpoint`).
- The endpoint index agrees with the key index exactly when no target that
  keeps an endpoint entry loses its key to another target, which the unique
  keys assumed by the source's comment guarantee (`EndpointIndexSoundIff`).
- A Get that times out keeps its reference, so its client stays pooled for
  ever (`TimedOutClientStays`); a Disconnect that overlaps the Get of its own
  Connect leaks the client (`OverlappingDisconnectLeaks`). The pool ends empty
  exactly when neither happens (`MeshModel.PoolEmptyIff`).
- The pool releases by key. A caller that releases a client twice can stop the
  one another caller holds, at once or when others give theirs back; only a Get
  that timed out before prevents it (`UnheldReleaseHarmsIff`,
  `UnheldReleaseStopsIff`, `DoubleReleaseStopsAHeldClient`).
- An egress Connect that failed can be Connected: at once, if it failed before
  it reset the state, and later, as soon as success is announced
  (`FailedConnectIsConnectedIff`, `ReturnsConnectedIff`).
- Write has no lock. Exit-node safety fails exactly when a success that was
  decided before the waiting began is stored during it
  (`TornExitNodeSafetyIff`), and Connected is lost exactly when another Write
  begun before the return is stored after it (`TornConnectedStaysIff`).
- A repeated authDevice answer appends the device users again, unless only the
  owner is listed (`RepeatedAnswerAppendsUsers`). An answer that is refused half
  way loses the guests whose entries come later (`AdminGuestsExact`).
- Save can unregister the old device without registering a new one, and a
  failed second reset leads there (`StrandingSaveIff`,
  `FailedSecondResetStrands`). Only the loaded device is ever unregistered, so
  that a second Save, or a reset after a Save, leaks the device registered
  first (`NoDeviceLeaksIff`).
- The flag for a changed user key outlives resets and saves: Save can send the
  key of an owner for whom none was loaded, or through another user's client,
  or through a client that was never made (`KeysGoHomeIff`, `NilClientIff`).
- A user whose access request was taken keeps a token, with no error reported,
  exactly when the reset of the auth context fails (`UnauthorisedTokenIff`); a
  token can be held together with an error as well (`TokenWithErrorIff`).

## Contracts of code that is not part of this model

cloud-builder, goutils, mycloudspace-common, Tailscale and the OAuth library
are not part of this model. Assumed of them: `Key()`, `GetSpaceID()`,
`GetEndpoint()` and `Error()` of a node do not change; `url.Parse` is a
function of its argument; the guests of a device context are kept under their
names and `ResetGuestUsers`, `AddGuestUser`, `GetGuestUser` and `NewGuestUser`
read and write that map, a new guest being inactive; `DeleteManageDevice`
removes every managed device with the ID; a new file configuration is not
initialised; Authenticate without error leaves a token; a graphql client acts
for the user whose token it was made with; a configuration that is initialised
carries a token when it is loaded; a device whose configuration is initialised
is registered when it is loaded.

## Model

| member | source | states |
|---|---|---|
| SpaceIndex.BeforeColon | mycscloud/space_nodes.go:118 | The host name is the longest prefix of the host without a ':'. |
| SpaceIndex.PutEndpoint | mycscloud/space_nodes.go:113-119 | Exactly the endpoint and, when it parses, the longest prefix of the host without a ':' are mapped to the node; every other entry stays. |
| SpaceIndex.TargetIDs | mycscloud/space_nodes.go:100-108 | The IDs that suppress shared spaces are the non-empty node IDs of bastion targets. |
| SpaceIndex.KeepSharedKeepsOrder | mycscloud/space_nodes.go:133-162 | The remaining shared list consists of original entries at increasing positions. |
| SpaceIndex.KeepSharedIsFilter | mycscloud/space_nodes.go:153-161 | A shared space is kept exactly when no local target has its space ID. |
| SpaceIndex.LookupSpaceExact | mycscloud/space_nodes.go:101-168 | LookupSpace(k): the (last) local target with the key, else the shared space furthest back in the original list with it, else nothing, although the list is changed during the scan. |
| SpaceIndex.LookupEndpointExact | mycscloud/space_nodes.go:109-172 | LookupSpaceByEndpoint(e): the first registered shared space with that endpoint or host, else the last loaded local target with it, else nothing. |
| SpaceIndex.ScanEndpointExact | mycscloud/space_nodes.go:134-151 | In the backwards scan the writer at the lowest position wins an endpoint entry; without a registered writer the entry stays. |
| SpaceIndex.EndpointIndexSoundIff | mycscloud/space_nodes.go:109-151 | Every endpoint entry is a name of a node that the key index holds under its own key, if and only if no target that keeps an entry is replaced under its key by another target. |
| SpaceIndex.EndpointIndexSound | mycscloud/space_nodes.go:109-151 | With unique local keys, as the source assumes, the endpoint index is sound. |
| SpaceIndex.EndpointIndexComplete | mycscloud/space_nodes.go:111-151 | An entry exists exactly for the endpoints, and for the hosts up to the first ':', of loaded local targets and of registered shared spaces; ConfigureTLS finds each of them by host. |
| SpaceIndex.DuplicateLocalKeysBreakSoundness | mycscloud/space_nodes.go:109-119 | Two targets with one key make an unsound entry. |
| SpaceIndex.SharedCopiesHiddenIff | mycscloud/space_nodes.go:137-161 | The key index holds no shared copy of a local space if and only if each shared space that is last with its key and has a local space ID also has a local key. |
| SpaceIndex.SharedCopyTakesEndpoint | mycscloud/space_nodes.go:137-161 | A shared copy under another key stays in the key index and takes the local target's endpoint entry. |
| SpaceNodesClass.SpaceNodes.RemoveShared | mycscloud/space_nodes.go:158 | Appending the tail to the head in place removes exactly entry i and moves the rest down. |
| SpaceNodesClass.SpaceNodes.DropShared | mycscloud/space_nodes.go:154-161 | Both branches of the deletion remove exactly entry i of the shared slice. |
| SpaceNodesClass.SpaceNodes.ScanSharedSpaces | mycscloud/space_nodes.go:133-162 | The in-place backwards scan ends in the indexes of the pure scan and in the filtered list. |
| SpaceNodesClass.SpaceNodes.IndexLocalTargets | mycscloud/space_nodes.go:100-125 | The loop over the local targets ends in the indexes and target IDs of the pure fold. |
| SpaceNodesClass.SpaceNodes.ConsolidateRemoteAndLocalNodes | mycscloud/space_nodes.go:89-164 | Consolidation gives the consolidated indexes and the filtered list, or after a failed fetch its error, the local indexes and the list as it was. |
| SpaceNodesClass.NewSpaceNodes | mycscloud/space_nodes.go:44-57 | Only the local targets are indexed. |
| SpaceNodesClass.GetSpaceNodes | mycscloud/space_nodes.go:59-87 | A result exactly when the fetch succeeded, with the consolidated indexes and filtered list. |
| SpaceNodesClass.SpaceNodes.LookupSpace | mycscloud/space_nodes.go:166-168 | In consolidated indexes the node found is the last local target with the key, else the shared space furthest back with it, else none. |
| SpaceNodesClass.SpaceNodes.LookupSpaceByEndpoint | mycscloud/space_nodes.go:170-172 | In consolidated indexes the node found is the first registered shared space with that endpoint or host, else the last loaded local target with it, else none. |
| ForkJoin.JoinIsDeterministic | mycscloud/space_nodes.go:75-131 | Every interleaving of the fetch goroutine with consolidation ends in the indexes, list and error of the sequential run: the consolidated ones, or after a failed fetch the local indexes and the list as fetched. |
| ForkJoin.JoinAlwaysReturns | mycscloud/space_nodes.go:75-131 | No interleaving gets stuck; each takes the same number of steps. |
| ForkJoin.JoinedSeesAnswer | mycscloud/space_nodes.go:77-131 | Once joined, the main thread sees both fetched fields complete. |
| PoolModel.GetConserves | mycscloud/space_nodes.go:174-201 | A Get, however it turns out, keeps refCount + 1 equal to the references taken on the pooled client, and hands out what it counts. |
| PoolModel.ReleaseConserves | mycscloud/space_nodes.go:203-227 | So does a Release of a held client. |
| PoolModel.RunConserves | mycscloud/space_nodes.go:174-227 | Conservation over every run in which callers release only what they hold. |
| PoolModel.NoHolderOfAStoppedClient | mycscloud/space_nodes.go:185-218 | In every reachable state a held client was never stopped and is the one pooled under its key; a key is pooled exactly when a reference to a client with it is out. |
| PoolModel.StopOnLastRelease | mycscloud/space_nodes.go:213-220 | Stop is called exactly by the Release of the last reference to that client, and at most once. |
| PoolModel.TimedOutClientStays | mycscloud/space_nodes.go:197-199 | After a timed-out Get the client stays pooled and running in every further run. |
| PoolModel.PoolEmptyIff | mycscloud/space_nodes.go:174-227 | The pool is empty exactly when nothing is held and no Get timed out. |
| UnheldReleases.ReleaseConservesIff | mycscloud/space_nodes.go:203-227 | A release of any client keeps the counts if and only if the client is held or nothing is pooled under its key. |
| UnheldReleases.UnheldReleaseStopsIff | mycscloud/space_nodes.go:203-220 | A caller that releases a client it does not hold leaves another caller with a stopped client at once if and only if the client pooled under the key is that caller's and its handle is the last reference. |
| UnheldReleases.UnheldReleaseHarmsIff | mycscloud/space_nodes.go:174-227 | After such a release some run, in which all callers release only what they hold, leaves a holder with a stopped client, if and only if a client is pooled under the key and no Get of it has timed out. |
| UnheldReleases.DoubleReleaseStopsAHeldClient | mycscloud/space_nodes.go:203-220 | Two callers hold one client and the first releases it twice: the second caller's handle, still out, is a stopped client. |
| ClientPoolClass.ClientPool.GetApiClientForSpace | mycscloud/space_nodes.go:174-201 | The instances on the heap follow the pool model; the client returned is the granted one. |
| ClientPoolClass.ClientPool.ReleaseApiClientForSpace | mycscloud/space_nodes.go:203-227 | The instances follow the model, also for a client that the pool does not manage. |
| ClientPoolClass.ClientPool.HeldClientIsPooled | mycscloud/space_nodes.go:185-218 | A held client object has not been stopped, and releasing it by key finds that very object. |
| ClientPoolClass.ClientPool.DropClient | mycscloud/space_nodes.go:215-217 | The instance is removed and its client stopped. |
| Notices.RecogniseAnyOrder | network/tailscale_client.go:250-260 | The three prefixes exclude each other, so the order of the branches does not matter. |
| Notices.TrimmedExact | network/tailscale_client.go:245-246 | What is trimmed off are line ends only, and what is left neither begins nor ends with one. |
| Notices.AfterNoticeExact | network/tailscale_client.go:249-261 | From an open state each announcement leads to its own state, success to one that depends on the waiting. |
| Notices.TrimmedPad | network/tailscale_client.go:245-246 | Line ends around a chunk disappear however many there are. |
| Notices.PaddingIrrelevant | network/tailscale_client.go:245-262 | Line ends at either end of a chunk never change the transition. |
| Notices.ConnectedAbsorbs | network/tailscale_client.go:249-261 | No sequence of writes leaves Connected. |
| Notices.ConnectedByNoticesIff | network/tailscale_client.go:249-261 | From an open state writes reach Connected exactly when the client does not wait for an exit node and some chunk announces success. |
| TailscaleClientClass.TailscaleClient.Write | network/tailscale_client.go:240-263 | The whole chunk is accepted; Connected and NotConnected stay, and from any other state each of the three prefixes leads to its own state and nothing else to another. |
| ConnectModel.ConnectFollowsPlan | network/tailscale_client.go:118-193 | A Connect that returns nil has made mesh key, endpoint, login, the DNS calls if asked for, and for egress the pong, IPv6 and route calls, successfully, once and in order. |
| ConnectOutcome.ConnectOutcomeIff | network/tailscale_client.go:118-193 | By the answers alone: when exactly a Connect has returned without error, and when with one. |
| ConnectOutcome.PingsExact | network/tailscale_client.go:180-187 | An egress Connect that has come to the pings goes on after each miss, fails after 30 in a row, and goes on to the exit-node step with a pong to any of the 30. |
| ConnectModel.StateBeforeLogin | network/tailscale_client.go:118-158 | Up to the login the state is what the output makes of the one before. |
| ConnectModel.StateSinceLogin | network/tailscale_client.go:159-193 | From the login on, and for egress until the return, the state is what the output since makes of Connecting. |
| ConnectModel.ExitNodeSafety | network/tailscale_client.go:135-193 | During an egress Connect no output reaches Connected before the exit-node step; on success a ping within 30 was answered, all routes were added and the state is Connected. |
| ConnectModel.FailedConnectIsConnectedIff | network/tailscale_client.go:118-193 | After a failed egress Connect the state is Connected if and only if the mesh key, the endpoint or the permission was missing and the state was Connected before or success was announced, or success was announced after the failure. |
| ConnectModel.ReturnsConnectedIff | network/tailscale_client.go:118-193 | It returns in state Connected if and only if it failed before the reset to Connecting and the state was Connected or success was announced before. |
| ConnectModel.FailsConnected | network/tailscale_client.go:118-120 | An output and a failing call with which it does. |
| ConnectModel.FailedConnectReportsConnectedIff | network/tailscale_client.go:147-150 | After any failure the state is Connected later if and only if it is now or success is announced. |
| TornWrites.UntornWrite | network/tailscale_client.go:249-261 | The test, the decision and the store of a Write, taken without interruption, make the transition of the whole Write. |
| TornWrites.TornExitNodeSafetyIff | network/tailscale_client.go:135-193 | An egress Connect that starts with no Write under way, with Writes torn into those steps, is never Connected between its reset to Connecting and the end of the exit-node step, if and only if no success decided before the waiting began is stored during it. |
| TornWrites.TornLoginIsConnected | network/tailscale_client.go:147-159 | A run in which one is. |
| TornWrites.TornConnectedStaysIff | network/tailscale_client.go:249-259 | After an egress Connect has returned Connected the state stays so, if and only if no Write that found the state open or the client waiting before the return stores anything else after it. |
| TornWrites.TornConnectedIsLost | network/tailscale_client.go:249-259 | A run in which Connected is lost. |
| TailscaleClientClass.TailscaleClient.Call | network/tailscale_client.go:160-183 | While a call is pending, output only makes its transitions; the answer then makes one step of the machine. |
| TailscaleClientClass.TailscaleClient.PingExitNode | network/tailscale_client.go:174-187 | The loop ends with the first pong, or fails when 30 pings were missed. |
| TailscaleClientClass.TailscaleClient.ConfigureDNS | network/tailscale_client_darwin.go:11-34 | Success means that the DNS manager was made and the servers were added. |
| TailscaleClientClass.TailscaleClient.ConfigureExitNode | network/tailscale_client_darwin.go:36-73 | The hook follows the machine to its return; only its last step makes the client Connected. |
| TailscaleClientClass.TailscaleClient.ConnectWithClient | network/tailscale_client.go:118-193 | For all events Connect is where the machine is; it returns without or with error exactly as the answers of its calls say, and an egress Connect without error ends Connected. |
| TailscaleClientClass.TailscaleClient.Connect | network/tailscale_client.go:101-194 | One reference is taken from the pool and kept in the client, however the rest turns out. |
| TailscaleClientClass.TailscaleClient.Disconnect | network/tailscale_client.go:196-229 | The context is cancelled, a held client is released once, the network configuration is cleared, and only the shutdown's error is returned. |
| MeshModel.MembersHoldRunningClients | network/tailscale_client.go:115-205 | In every interleaving of many clients' Connects and Disconnects a client still held is running and pooled. |
| MeshModel.MembersConnect | network/tailscale_client.go:118-193 | In every interleaving each Connect is where the events that concern it alone lead. |
| MeshModel.PoolEmptyIff | network/tailscale_client.go:115-205 | When all have disconnected, the pool is empty if and only if each Get that took a reference was answered in time and came before the Disconnect of its client. |
| MeshModel.OrderlyRunsEmptyThePool | network/tailscale_client.go:115-205 | If each disconnects only after its Get and none times out, the pool ends empty whatever failed in between. |
| MeshModel.OverlappingDisconnectLeaks | network/tailscale_client.go:196-205 | A Disconnect before the Get answers leaves the client in the pool. |
| MeshModel.StepInv | mycscloud/space_nodes.go:174-227 | The pool counts exactly what the Tailscale clients hold, after every step. |
| DeviceModel.Accepted | mycscloud/device.go:148-156 | The device users are handled up to the first owner entry with another user ID. |
| DeviceModel.GuestsExact | mycscloud/device.go:144-171 | A guest survives exactly when a non-owner entry has its name and user ID; the last such entry gives its first, middle and family name, and it is active if and only if that entry's status is "active". |
| DeviceModel.FirstUsersExact | mycscloud/device.go:117-136 | Only the first entry for a managed device gives it users. |
| DeviceModel.NonOwnersExact | mycscloud/device.go:120-133 | The users appended are those that are not the owner, each once and in the order of the answer. |
| DeviceModel.KeptAtExact | mycscloud/device.go:112-139 | The surviving managed devices are exactly the listed ones, in order. |
| DeviceModel.AdminUpdateExact | mycscloud/device.go:109-171 | The exact guests and managed devices after a successful administrator's answer. |
| DeviceModel.AdminGuestsExact | mycscloud/device.go:109-171 | An administrator's answer, refused or not: it is refused if and only if an owner entry has another user ID, the last matching entry before that one gives a guest's names and status, a guest is lost if and only if all entries that match it come later, and the devices are updated all the same. |
| DeviceModel.UpdateErrorExact | mycscloud/device.go:34-188 | With which error any answer ends, by the access type, the device, the user and the owner entries. |
| DeviceModel.RefusedAnswerLosesGuest | mycscloud/device.go:148-156 | A refused answer that confirms a guest and loses it. |
| DeviceModel.GuestsOrderIrrelevant | mycscloud/device.go:144-171 | With distinct guest names the merged guests do not depend on the order of the entries. |
| DeviceModel.UsersOrderIrrelevant | mycscloud/device.go:109-171 | With distinct guest names an administrator's answer succeeds in any order of its users, with the same context. |
| DeviceModel.SuccessMeansAuthorised | mycscloud/device.go:91-188 | No error means the user is the owner or an active guest; a guest's answer changes only that guest's Active. |
| DeviceModel.ErrorsChangeNothingElse | mycscloud/device.go:34-107 | Errors before the administrator's update change nothing, but for the deactivated guest whose access is pending. |
| DeviceModel.ReconciledIDs | mycscloud/device.go:112-139 | The IDs of the managed devices afterwards are the listed ones of before, in order. |
| DeviceModel.UpdateShrinks | mycscloud/device.go:109-188 | One update, failing half way or not, adds no guest and no managed device and keeps the owner. |
| DeviceModel.UpdatesShrink | mycscloud/device.go:34-188 | The same over any sequence of answers and errors. |
| DeviceModel.UpdateTwice | mycscloud/device.go:109-171 | A successful administrator's answer applied twice gives the guests, device and managed device IDs of once. |
| DeviceModel.RepeatedAnswerAppendsUsers | mycscloud/device.go:117-136 | A successful administrator's answer applied again changes nothing if and only if the first entry of each managed device lists no user but the owner. |
| DeviceModel.RepeatedAnswerDiffers | mycscloud/device.go:117-136 | A context and an answer that changes it again. |
| DeviceContextClass.DeviceContext.ExtendManagedDevices | mycscloud/device.go:112-136 | The loop over the answer extends each managed device as the model says and leaves over the unlisted ones. |
| DeviceContextClass.DeviceContext.PruneManagedDevices | mycscloud/device.go:137-139 | In whatever order the map is visited, exactly the unlisted devices are removed. |
| DeviceContextClass.DeviceContext.MergeDeviceUsers | mycscloud/device.go:144-171 | The guest map is rebuilt from the old objects, whose fields are updated through it, up to a refused owner entry. |
| DeviceContextClass.DeviceContext.UpdateDeviceContext | mycscloud/device.go:24-189 | The objects get the values of the model's update; every surviving guest and managed device is the same object as before. |
| InitializerModel.ResetFlagCoupled | config/initializer.go:96-109 | Between operations resetConfig holds exactly when a new owner's client is set or the configuration is not initialised, whatever failed. |
| InitializerModel.LoadExact | config/initializer.go:84-109 | When a load succeeds, and that the reset flag is up exactly for a configuration that is not initialised. |
| OwnerChanges.ResetGoesThroughIff | config/initializer.go:177-290 | A reset goes through if and only if a new configuration is made, the owner of an initialised one confirmed and logged in, somebody with another name logs in then, and that user and a device can be set up; that user is then the owner. |
| OwnerChanges.RefusedResetExact | config/initializer.go:177-238 | Which error ends a reset before the new owner is set up. |
| OwnerChanges.FailedSetUpExact | config/initializer.go:269-282 | Which error ends the set up of the new owner. |
| OwnerChanges.OwnerStep | config/initializer.go:187-238 | A step that changes the owner of an initialised configuration is a reset that was confirmed, in which that owner logged in, and the new owner is the user of the second login and has another name. |
| OwnerChanges.OwnerConsents | config/initializer.go:139-290 | In every run in which a loaded initialised configuration gets another owner, the loaded owner has consented to a reset. |
| OwnerChanges.SaveSucceedsIff | config/initializer.go:467-514 | Save ends without error if and only if a changed key has a client and is accepted, a device is registered if the reset flag is up, and the file is saved; it makes the configuration initialised exactly when it comes to the file. |
| OwnerChanges.SaveErrorExact | config/initializer.go:467-514 | Which error ends a save. |
| OwnerChanges.InitialisedIff | config/initializer.go:96-514 | Over every run: the configuration is initialised if and only if it was loaded so and no reset went through, or a Save came to save the file and no reset went through after it. |
| InitializerModel.InitialisedConfigIsSound | config/initializer.go:96-103 | An initialised configuration has an owner and a device ID that was validated at load or registered through its owner's client; only the loaded device is ever unregistered. |
| InitializerModel.FailedResetKeepsConfig | config/initializer.go:159-175 | A failed reset leaves the configuration unreplaced and the flags without a new owner. |
| InitializerModel.StepInv | config/initializer.go:139-515 | Reset, key load and save each keep flags, owner, device, key and cloud calls consistent, with any step failing. |
| DeviceRegistrations.RegisteredIff | config/initializer.go:478-508 | A device is registered if and only if it was at load, or some Save registered it, and no later operation unregistered it. |
| DeviceRegistrations.NothingRegisteredIff | config/initializer.go:478-508 | No device is registered if and only if the loaded device, if any, was unregistered, and each Save that registered one got the loaded device's ID, which was unregistered later. |
| DeviceRegistrations.StrandingSaveIff | config/initializer.go:478-506 | When exactly one Save takes away the last registration: the unregistration succeeds, nothing is registered, and the loaded device was the only one. |
| DeviceRegistrations.FailedSecondResetStrands | config/initializer.go:159-168 | From any reset that fails after a successful one until the next reset no Save succeeds or registers a device, and the registrations lose the old device if and only if one of the Saves unregisters it. |
| DeviceRegistrations.SaveStrands | config/initializer.go:478-495 | A successful reset, a failed one and a Save that takes away the only registration. |
| DeviceRegistrations.NoDeviceLeaksIff | config/initializer.go:478-508 | No registered device is leaked if and only if each new device registered is the one registered last, with no successful reset since. |
| DeviceRegistrations.OneRegistrationIff | config/initializer.go:478-508 | If the cloud gives each device an ID of its own: if and only if at most one Save registers a device and no reset succeeds after it. |
| DeviceRegistrations.LeakedForEver | config/initializer.go:481-490 | A leaked device stays registered in every further run. |
| DeviceRegistrations.SecondSaveLeaksDevice | config/initializer.go:478-508 | A second Save after a reset registers another device and leaks the first. |
| DeviceRegistrations.TwoSavesLeak | config/initializer.go:478-508 | A reset and two Saves with which that happens. |
| UserKeys.KeysGoHomeIff | config/initializer.go:467-476 | Every key update sends a key loaded for the owner through a client of that owner, if and only if at each Save that updates no reset has succeeded since a key was loaded, and the newest reset succeeded or the owner is the user whose token was loaded. |
| UserKeys.StaleKeyFlag | config/initializer.go:344-346 | A key is loaded, a reset puts another owner in place, and Save sends that owner's key, which was never loaded. |
| UserKeys.KeyThroughOldClient | config/initializer.go:468-472 | After a failed second reset the new owner's key goes through the client of the user whose token was loaded. |
| UserKeys.NilClientIff | config/initializer.go:467-475 | Save uses an API client that was never made if and only if a key was loaded, the newest reset (if any) failed, and no initialised configuration was loaded. |
| UserKeys.NilClientUsed | config/initializer.go:467-475 | A file with an owner, not initialised, with which it does. |
| ConfigInitializerClass.NewConfigInitializer | config/initializer.go:56-111 | An initializer results exactly when the file loads and an initialised one has owner and device. |
| ConfigInitializerClass.ConfigInitializer.ResetDeviceOwner | config/initializer.go:139-247 | The object follows the model; after an error the configuration object is the same and unchanged, otherwise it is a new one. |
| ConfigInitializerClass.ConfigInitializer.SetNewOwner | config/initializer.go:249-291 | Each failing step is reported; success leaves an uninitialised configuration of the new owner with a new device. |
| ConfigInitializerClass.ConfigInitializer.LoadDeviceOwnerKey | config/initializer.go:293-353 | The key is to be updated exactly when it was loaded, there is an owner and the owner accepts it. |
| ConfigInitializerClass.ConfigInitializer.Save | config/initializer.go:431-515 | The configuration object, the flags and the calls to the cloud follow the model in every outcome. |
| LoginModel.FailsClosed | auth/auth.go:285-300 | If resets succeed, a token still held when the handler is called means no error and an owner or active guest; it is held exactly when the user was let in and nothing failed later. |
| LoginModel.UnauthorisedTokenIff | auth/auth.go:410-440 | Without that assumption, an unauthorised user keeps a token without an error exactly when an access request was taken and the reset after it failed. |
| LoginModel.UnauthorisedTokenKept | auth/auth.go:410-440 | Answers with which that happens. |
| LoginModel.TokenWithErrorIff | auth/auth.go:285-300 | When exactly a login succeeds, and when a token is still held together with an error: the final reset failed, a token was got, and no user turned away has had it reset before. |
| LoginModel.GetTokenExact | auth/auth.go:189-214 | When a login, forced or not, gets a token, and what it leaves otherwise. |
| LoginModel.RequestedGuest | auth/auth.go:399-412 | The guest for whom access was requested is inactive: a known one is otherwise unchanged, a new one has the user's ID and no other fields. |
| LoginModel.RefusalExact | auth/auth.go:371-440 | With which error a login ends that is refused. |
| LoginModel.OwnerErrorExact | auth/auth.go:445-508 | With which error the login of an owner ends who was let in. |
| LoginModel.TargetsExact | auth/auth.go:480-506 | A sync loads the target context, one that fails after its reset leaves it emptied, and nothing else changes it. |
| LoginModel.ConfigAsOfMovesForward | auth/auth.go:480-506 | config-as-of never moves back, changes only to the token's timestamp with the target context loaded, and not in a failed login. |
| LoginModel.OwnerLoginSyncs | auth/auth.go:445-508 | A successful login of the owner has the owner's key and a target context as new as the token says. |
| LoginModel.LoginsMoveForward | auth/auth.go:480-506 | Over any run of logins config-as-of never decreases and a synced target context is of exactly that time. |
| LoginModel.LoginsInventNoOne | auth/auth.go:371-440 | Over any run of logins the owner stays, managed devices only disappear, and every guest was known before or is a user for whom a login requested access. |
| LoginClass.AppConfig.AuthorizeDeviceAndUser | auth/auth.go:334-511 | Session and shared device context follow the model in every outcome. |
| LoginClass.AppConfig.HandleUnauthorised | auth/auth.go:385-441 | The refusal branch: access request, inactive guest, reset of the auth context. |
| LoginClass.AppConfig.AuthorizeAsOwner | auth/auth.go:445-508 | The owner branch: key and sync, with the target context emptied by a failed load. |
| LoginClass.AppConfig.GetAuthenticatedToken | auth/auth.go:173-218 | The token and the logged in user after a login, forced or not; a forced login fails at once when the reset before it fails. |
| LoginClass.AppConfig.Login | auth/auth.go:267-302 | What the result handler sees, with the deferred reset done. |
| TokenChannels.ChannelProtocol | auth/auth.go:187-217 | In every interleaving each token channel carries one value and is closed once, after its receive; no send or close meets a closed channel. |
| TokenChannels.NeverStuck | auth/auth.go:196-215 | Until the consumer ends some thread can go on, and so can the threads of a login until its auth channel is used up. |
| TokenChannels.EverythingEnds | auth/auth.go:187-217 | Every interleaving ends after at most seven steps for each login, and then the consumer has ended and each channel that is used has carried one value and is closed. |
| TokenChannels.HandOver | config/initializer.go:206-229 | The first channel of an owner reset is used up and closed before the second login begins. |

## Left out

- GetAllSpaces and GetSharedSpaces: they copy the key index and return the slice; the order of the former is that of a library sort.
- api, ui and mycsnode packages, and the other methods of mycscloud: request building; their outcomes are inputs here.
- ValidateAuthenticatedToken, Logout, browser and login pages, preferences: no state that the modelled operations depend on.
- getPrivateKey and RSA key handling: file and cryptographic operations; LoadDeviceOwnerKey takes their outcome.
- The tailscale daemon, DNS caching, traffic sampling, system device detection: counters, sockets and platform calls.
- SpaceNodesClass.SpaceNodes: the fields of the Go type that hold the API clients are class ClientPool, so that each half states only what it changes.
- ClientPoolClass.ClientPool.GetApiClientForSpace: a client whose Start fails is dropped before it is pooled, and what becomes of it is not followed.
- TailscaleClientClass.TailscaleClient.Connect: Writes are atomic and arrive while a call is pending; Writes that are torn are the subject of TornWrites, on values. Called once per client, as in the source's use.
- TailscaleClientClass.TailscaleClient.Disconnect: what the network context holds is not modelled, only that it is cleared.
- TornWrites.Torn: pairs of Connect's own stores are one step each: the waiting flag and Connecting before the login, Connected and the deferred clearing of the flag at the end.
- DeviceContextClass.ManagedDevice: its users are values, because an update makes them and never changes them; aliasing with other users is not modelled.
- DeviceContextClass.DeviceContext.UpdateDeviceContext: IDs and names of users and devices are constants, because an update never assigns them.
- ConfigInitializerClass.ConfigInitializer: operations run one after the other; pass phrase, key timeout and device name are not modelled, and the user interface is its answers.
- LoginModel.GetToken: the OAuth flow is its outcome; time and timeouts are not modelled.
- TokenChannels.System: what the values in the channels say is in LoginModel and InitializerModel; liveness of the OAuth wait is assumed.
