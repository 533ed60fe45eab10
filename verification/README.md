# A verified model of the bandwidth exchange

This project models the parts of the exchange where state matters, and proves what they promise over every input
and every run: the market's ledger of offers, orders and contracts with its concurrent RPC threads, the reloader that
writes contracts into a border-router topology under a lock file, and the bandwidth monitor made of an XDP packet
parser and a host loop. `dafny verify dfyconfig.toml` checks all of it.

| modules | what they model |
|---|---|
| `Outcomes`, `Text`, `Octets` | optional values and results; Python's `str`/`int` conversions on ASCII text; bytes and byte orders |
| `Conversion` | bandwidth profiles as CSV text, `ip:port`, `ip:min-max` and ISD-AS numbers |
| `Profiles` | selling bandwidth from a profile, one purchase or a list of them |
| `Signing` | the signed byte layouts in Python and, independently, in Go |
| `Ledger`, `LedgerInvariant`, `LedgerTheorems`, `LedgerCalls` | the tables, each call as a function on them, the invariant of all runs and what follows from it |
| `LedgerExample` | a concrete run, so that the theorems' assumptions are seen to be satisfiable |
| `Market` | the service as a class whose methods change the tables in place, each call all or nothing |
| `MarketThreads` | any number of RPC threads, mutex, transactions, two isolation levels, rollback at any point |
| `MarketProgress` | that a call that would succeed alone can commit |
| `LowestFree`, `Topology`, `TopologyTheorems`, `TopologyCalls` | the allocator, adding and removing contracts in a topology, the set of active contracts, when each call succeeds |
| `ReloaderLock` | any number of reloader processes under the lock file |
| `Packet`, `PacketDecode` | the parser over byte strings, frames laid out by the header formats, the keys of hops; every accepted byte string is such a frame |
| `Counters` | the per-CPU counter map, its events, and reading it back |
| `HopSet` | the host's own set of hops, alone and racing with the data path |

Six properties one might expect do not hold, and the model keeps the code's behaviour.

* The search for the lowest free value ignores `min_value` when a smaller value with a gap behind it is in the list:
  from `[5]` and 50000 it returns 6 (`LowestFree.IgnoresMin`). `LowestFree.RespectsMinIff` gives the exact condition,
  `TopologyTheorems.PickIsNew` carries it over to public ports.
* The Python service truncates timestamps towards zero where a protobuf timestamp rounds down, so a valid offer that
  starts at a fraction of a second before 1970 has different bytes on both ends (`LedgerExample.EarlyLayoutsDiffer`).
  The three `LayoutsAgree` lemmas of `Signing` are exact, and `LedgerCalls.ValidSeconds` and
  `LedgerCalls.RequestLayoutsAgree` reduce their conditions to the start of the offer.
* The client signs the buyer's AS as it writes it, the service validates over the AS as it is stored. When the database
  finds an AS under another spelling the bytes differ and the purchase is refused
  (`LedgerExample.OtherSpellingIsRefused`); `Signing.OrderLayoutsAgree` and `LedgerCalls.RequestLayoutsAgree` include
  that condition.
* A packet whose current hop field is the first one, seen by the monitor that looks at the previous one, is counted under
  a key made of the bytes before the hop fields, which belongs to none of them (`Packet.ParserCorrect`).
* A full ring buffer can drop the report of a new hop (`HopSet.DroppedReportForgets`). The host then misses the hop
  unless it hears of it another way, and goes on missing it until the hop is evicted, or inserted by another CPU that
  had looked it up before it was stored. `HopSet.ForgottenIff` is the exact condition.
* `max_port` is never checked, and an address with a port above 65534 is stored but cannot be read back
  (`TopologyTheorems.LargePortIsUnreadable`). `TopologyTheorems.ApplyKeepsAllocated` is the exact condition for one
  operation, and `TopologyTheorems.UnreadablePortBlocks` says what such an address does to later activations.

Two comments in the source differ from the code, and the model follows the code: `_add_cotract_to_topo` speaks of
`max(ports) + 1` and of a single address, but it takes the lowest free port of the address its `router` function picks;
and `purchase_order_fields_serialize_to_bytes` says that the offer is serialised without its signature, but its callers
include it.

## Model

| member | source | states |
|---|---|---|
| Conversion.CsvRoundTrip | esdx4ixps/util/conversion.py:11-13 | A printed bandwidth profile parses back to the same numbers. |
| Conversion.CsvTextOfValues | esdx4ixps/market/models/offer.py:65 | A printed profile passes the field validator exactly when no value is negative. |
| Conversion.ValidTextParses | esdx4ixps/market/models/offer.py:113 | Text that passes the validator always parses, to at least one number and none below zero. |
| Conversion.AsStrToInt | esdx4ixps/util/conversion.py:49-71 | The loop over the groups of an AS number computes their positional value, or fails exactly when one of the checks does; the final range check never fires. |
| Conversion.IaStrToInt | esdx4ixps/util/conversion.py:36-72 | The whole parser agrees with the specification of accepted ISD-AS text. |
| Conversion.IaRoundTrip | esdx4ixps/util/conversion.py:36-72 | The usual text of an ISD-AS number is read back as ISD * 2^48 + AS. |
| Conversion.IaOfDecimal | esdx4ixps/util/conversion.py:46-57 | A decimal AS number is read as itself up to 32 bits and refused beyond, with an ISD up to 16 bits and refused beyond. |
| Conversion.IaOfGroups | esdx4ixps/util/conversion.py:58-72 | Hexadecimal groups are read as their positional value if and only if there are three of at most 16 bits each. |
| Conversion.IaHasNoS | esdx4ixps/util/conversion.py:36-72 | No accepted ISD-AS text contains the letter that starts the label after it in a signed order. |
| Conversion.IaHasNoBlanks | esdx4ixps/util/conversion.py:42-66 | No accepted ISD-AS text contains a blank, although Python's integer parser skips blanks at both ends. |
| Conversion.IpPortRoundTripIff | esdx4ixps/util/conversion.py:87-127 | Printing an address and a port and parsing the text gives both back if and only if the port is from 0 to 65534; any other is refused. |
| Conversion.ParseIp4Iff | esdx4ixps/util/conversion.py:94-96 | The only text read as an IPv4 address is the one it is printed as. |
| Conversion.IpPortToStrInjective | esdx4ixps/util/conversion.py:125-127 | Different addresses or ports print differently. |
| Conversion.PortRangeBounds | esdx4ixps/util/conversion.py:113-122 | An accepted template has 0 <= min <= max <= 65534, although the code checks only the maximum. |
| Conversion.TemplateIff | esdx4ixps/util/conversion.py:113-122 | An address with printed ports is accepted as a template if and only if there are two of them up to 65534, and they are put in order. |
| Profiles.SubtractProfile | esdx4ixps/market/models/offer.py:175-200 | The loop refuses a purchase unless it is aligned, inside the profile, non-negative, not zero and covered in each period; otherwise it subtracts exactly the padded purchase. |
| Profiles.FitsPointwise | esdx4ixps/market/models/offer.py:185-196 | A purchase fits exactly when it is admissible and its padded demand is covered in every period; what is left is never negative. |
| Profiles.SellAllIff | esdx4ixps/market/models/offer.py:175-200 | A list of purchases all succeed in order if and only if each is admissible and their pointwise sum is at most the profile; what is left is the difference. |
| Profiles.OrderIndependence | esdx4ixps/market/models/offer.py:175-200 | Every permutation of a list of purchases succeeds or fails together and leaves the same profile. |
| Signing.SerializePairs | go-client/serialize/serialize.go:53-65 | The client's loop concatenates all labels and values in order. |
| Signing.OfferLayoutsAgree | go-client/serialize/serialize.go:10-24 | The Go and the Python offer bytes are equal if and only if both times are whole seconds or not before 1970. |
| Signing.OrderLayoutsAgree | go-client/serialize/serialize.go:26-34 | The bytes the client signs for its own request, with the buyer as it wrote it and a protobuf start, equal those the service validates, with the buyer as stored, if and only if both times of the offer and the start are whole seconds or not before 1970 and the buyer is written the same. |
| Signing.ContractLayoutsAgree | go-client/serialize/serialize.go:36-50 | The bytes the client rebuilds from the contract message and the requested offer equal those the service signed if and only if both times of the offer are whole seconds or not before 1970. |
| Signing.OrderBytesInjective | esdx4ixps/util/serialize.py:48-59 | For fixed offer bytes the order layout determines the profile, the buyer and the second of the start. |
| Ledger.Tip | esdx4ixps/market/models/offer.py:36-45 | The walk along `deprecated_by` terminates, at an available offer that is not older. |
| Ledger.OfferPurchase | esdx4ixps/market/models/offer.py:175-200 | The text-to-text form of a purchase: parse both profiles, subtract, print. |
| LedgerInvariant.AddKeeps | esdx4ixps/market/services.py:42-56 | Adding an original and its broker-signed copy keeps the invariant and changes no stored row. |
| LedgerInvariant.SaleKeeps | esdx4ixps/market/purchases.py:49-83 | A sale keeps the invariant and changes no stored row. |
| LedgerInvariant.ExecKeeps | esdx4ixps/market/services.py:63-112 | Every successful call keeps the invariant and only adds rows. |
| LedgerTheorems.ReplayKeeps | esdx4ixps/market/services.py:42-112 | The invariant holds after every run of any calls. |
| LedgerTheorems.SaleKeepsValid | esdx4ixps/market/models/offer.py:99-121 | If an offer passes `_pre_save` and a purchase succeeds, the offer with the profile that is left passes it too. |
| LedgerTheorems.PurchaseAllIs | esdx4ixps/market/models/offer.py:175-200 | Purchases one after another from the text of a profile are the same purchases from its numbers, printed again. |
| LedgerTheorems.PurchaseOrderIndependence | esdx4ixps/market/models/offer.py:175-200 | Purchases from an offer succeed or fail together in every order, also when some text does not parse, and leave the same text. |
| LedgerTheorems.OrdersInWindow | esdx4ixps/market/models/offer.py:183-189 | Every stored order starts on a period boundary, lies inside [notbefore, notafter] and fitted the offer it bought from. |
| LedgerTheorems.OrdersBuySomething | esdx4ixps/market/models/offer.py:195-197 | Every stored order takes more than zero in some period. |
| LedgerTheorems.DemandAtTime | esdx4ixps/market/models/offer.py:182-199 | An order takes from each period of the offer what its profile asks for at the time that period starts, and nothing from the others. |
| LedgerTheorems.Conservation | esdx4ixps/market/purchases.py:52-82 | In every period the original's bandwidth is what an offer of its chain has plus what all earlier orders bought, every term non-negative. |
| LedgerTheorems.ChainConservation | esdx4ixps/market/purchases.py:52-82 | The original's bandwidth is the tip's plus everything its chain ever sold. |
| LedgerTheorems.ChainShape | esdx4ixps/market/models/offer.py:167-173 | A chain is one deprecated unsold original, then sold and deprecated offers, then one available unsold tip, and contains everything that starts at that original. |
| LedgerTheorems.OneTip | esdx4ixps/market/models/offer.py:24-34 | No chain has two available offers. |
| LedgerTheorems.OnTheWay | esdx4ixps/market/models/offer.py:36-45 | Every offer lies on the path from its original to the tip that the walk from it reaches. |
| LedgerTheorems.OriginalOffers | esdx4ixps/market/models/offer.py:20-22 | The filter of `_original_offers` selects exactly the offers that deprecate nothing. |
| LedgerTheorems.AvailablePerAdd | esdx4ixps/market/models/offer.py:24-25 | After every run there are as many available offers as AddOffer calls that succeeded. |
| LedgerCalls.DerivedLookup | esdx4ixps/market/models/offer.py:36-45 | From any stored offer `get_derived` returns the unique tip of its chain, unsold and with the same terms; its "does not exist" error never fires. |
| LedgerCalls.EquivalentOnTip | esdx4ixps/market/services.py:95-112 | PurchaseEquivalent of an available offer does what Purchase does. |
| LedgerCalls.PortOfContract | esdx4ixps/market/purchases.py:18-33 | The k-th contract of a chain has the template's address and the port min + k, never above max. |
| LedgerCalls.AddressesDistinct | esdx4ixps/market/purchases.py:18-33 | Two contracts of one chain never share an address. |
| LedgerCalls.ContractsOfChain | esdx4ixps/market/models/contract.py:21-25 | A chain has exactly as many contracts as offers between its original and its tip. |
| LedgerCalls.AtMostPortsContracts | esdx4ixps/market/purchases.py:31-32 | The contracts of a chain never outnumber the ports of its template. |
| LedgerCalls.DrawContractIff | esdx4ixps/market/models/contract.py:30-54 | For a placed order the only reason not to draw a contract is that no port is left. |
| LedgerCalls.AddSucceedsIff | esdx4ixps/market/services.py:42-61 | AddOffer succeeds if and only if the AS is known and signed a valid offer; the broker's copy is never refused. |
| LedgerCalls.AddDecidedBySeller | esdx4ixps/market/models/offer.py:138-145 | For an offer that starts at a whole second or not before 1970, AddOffer succeeds if and only if the offer is valid ASCII and the known seller's signature verifies over the bytes the Go client builds for it, profile included. |
| LedgerCalls.PreSaveIff | esdx4ixps/market/models/offer.py:99-121 | An offer is valid if and only if its profile is plain non-negative numbers that last, one period each, exactly from `notbefore` to `notafter`, and the seller, MTU, link type, class and template are in range. |
| LedgerCalls.SaleSucceedsIff | esdx4ixps/market/purchases.py:36-83 | A sale succeeds if and only if the request matches, fits, is signed by a known buyer, and a port is left; a right request can fail only for lack of a port. |
| LedgerExample.OfferIsSold | esdx4ixps/market/services.py:42-103 | What the theorems assume can be met: in a concrete lawful environment an offer is added and then sold. |
| LedgerCalls.SalesDiffer | esdx4ixps/market/services.py:95-112 | In any run two purchases that succeed, exact or equivalent, sell different offers. |
| LedgerCalls.SoldAtMostOnce | esdx4ixps/market/services.py:95-103 | In any run at most one Purchase of a given offer id succeeds. |
| LedgerCalls.ValidSeconds | esdx4ixps/market/models/offer.py:107-112 | For a valid offer only its start decides whether service and client see the same seconds, since it lasts whole periods. |
| LedgerCalls.SignedBytesAgree | esdx4ixps/market/models/offer.py:123-136 | What the service signs or checks for an offer is what the client builds without a signature, if and only if both see the same seconds. |
| LedgerCalls.OfferVerifiesForClient | esdx4ixps/market/models/offer.py:155-162 | Every stored offer but an original carries a broker signature that verifies over the client's bytes of that offer. |
| LedgerCalls.RequestLayoutsAgree | esdx4ixps/market/models/purchase_order.py:29-44 | For a request the offer can serve, the client's order bytes are the service's if and only if the offer starts at a whole second or not before 1970 and the AS is stored as the client writes it. |
| LedgerCalls.ContractVerifiesForClient | esdx4ixps/market/models/contract.py:30-42 | Each stored contract has an offer of its chain over which the buyer signed, and the broker's signature verifies over the bytes the client rebuilds with that offer. |
| LedgerCalls.SaleVerifiesForBuyer | esdx4ixps/market/purchases.py:49-75 | The contract of a sale carries the time of the call, and verifies over the bytes the client rebuilds with the very offer its request carried. |
| LedgerCalls.BuyersCanVerify | esdx4ixps/market/services.py:63-112 | After any run the contract of every purchase in it still verifies that way, with the request's own profile, start and signature and the time of its call. |
| LedgerExample.EarlyLayoutsDiffer | go-client/serialize/serialize.go:10-24 | A concrete valid offer, starting half a second before 1970, has different bytes in the service and in the client. |
| LedgerExample.OtherSpellingIsRefused | esdx4ixps/market/models/purchase_order.py:38-44 | A concrete request in a spelling of the AS that is found but not stored is refused for its signature. |
| Market.MarketService.DeprecatedBy | esdx4ixps/market/models/offer.py:77-80 | Finds the offer that deprecates a given one, if there is one. |
| Market.MarketService.GetDerived | esdx4ixps/market/models/offer.py:36-45 | The loop returns the requested offer and the tip of its chain, or the error of the specification. |
| Market.MarketService.SaveOffer | esdx4ixps/market/models/offer.py:99-121 | Stores a valid row and nothing else, or refuses it and stores nothing. |
| Market.MarketService.AddOffer | esdx4ixps/market/services.py:42-61 | Leaves the tables of the specification, or an error and the tables as they were; returns the copy. |
| Market.MarketService.PurchaseOffer | esdx4ixps/market/purchases.py:36-83 | Order, contract and new offer, written one after another, are those of the specification. |
| Market.MarketService.SellInTransaction | esdx4ixps/market/services.py:63-93 | A failed sale leaves no order, contract or offer behind. |
| Market.MarketService.Purchase | esdx4ixps/market/services.py:95-103 | Keeps the invariant; sells exactly the requested offer, or changes nothing. |
| Market.MarketService.PurchaseEquivalent | esdx4ixps/market/services.py:105-112 | Keeps the invariant; sells the tip of the requested offer's chain, or changes nothing. |
| MarketThreads.CommitIsExec | esdx4ixps/market/services.py:70-90 | The rows a thread has staged are those its call gives when run alone on the tables committed by then. |
| MarketThreads.AddCommitIsExec | esdx4ixps/market/services.py:46-56 | The same for an AddOffer thread, which takes no mutex. |
| MarketThreads.StepOk | esdx4ixps/market/services.py:20-112 | Every step of any thread keeps the invariant of the concurrent system. |
| MarketThreads.Serialisable | esdx4ixps/market/services.py:20-112 | Under every interleaving and both isolation levels the committed tables equal running the winning calls one by one, each succeeding; failed calls leave nothing; the mutex excludes, and no finished call keeps it. |
| MarketThreads.NoDoubleSale | esdx4ixps/market/services.py:20-103 | Two threads that purchase the same offer never both commit. |
| MarketProgress.PurchaseCommits | esdx4ixps/market/services.py:63-93 | A purchase thread that finds the mutex free, on tables where its call would succeed, can run to its end, commits exactly the tables of that call, and gives the mutex back. |
| MarketProgress.AddCommits | esdx4ixps/market/services.py:42-56 | The same for an AddOffer thread, whoever holds the mutex. |
| LowestFree.FindLowestFreeValue | esdx4ixps/reloader/topology.py:126-135 | The pass over the sorted list returns the first number missing from `min_value` on, or from the smallest value when that is lower, for every list. |
| LowestFree.LowestFromMin | esdx4ixps/reloader/topology.py:126-135 | When no value is below `min_value`, the result is the least missing integer from there on. |
| LowestFree.RespectsMinIff | esdx4ixps/reloader/topology.py:126-135 | The result is at least `min_value` if and only if no number is missing between the smallest value and it. |
| LowestFree.IgnoresMin | esdx4ixps/reloader/topology.py:126-135 | From [5] and 50000 the result is 6. |
| Topology.Reloader.AddContractToTopo | esdx4ixps/reloader/topology.py:143-195 | The scan over all routers, the allocation and the new interface are those of the specification. |
| Topology.Reloader.RemoveInterfaceFromBr | esdx4ixps/reloader/topology.py:197-204 | The nested loops remove the first interface with the remote, or report that there is none. |
| Topology.Reloader.RemoveInterface | esdx4ixps/reloader/topology.py:206-212 | Removes the interface and then the ESDX router if that left it empty. |
| Topology.Reloader.Activate | esdx4ixps/reloader/topology.py:214-230 | The stored topology is the one of the specification; a failed activation leaves it as it was. |
| Topology.Reloader.Deactivate | esdx4ixps/reloader/topology.py:232-244 | The same for a deactivation. |
| TopologyTheorems.PickIsNew | esdx4ixps/reloader/topology.py:178-184 | The interface id and the public address picked are used nowhere; the port is at least `min_port` if and only if no port is missing below it. |
| TopologyTheorems.PickInRange | esdx4ixps/reloader/topology.py:181-184 | When the ports of chosen addresses start at `min_port`, the port lies in [min_port, max_port]. |
| TopologyCalls.IdIsLeast | esdx4ixps/reloader/topology.py:178 | With positive ids, the new interface id is the least positive number not in use. |
| TopologyCalls.EsdxNameIs | esdx4ixps/reloader/topology.py:137-141 | The ESDX router's name is "br", the local AS with each colon replaced by an underscore, and "-1111". |
| TopologyCalls.NotOursIff | esdx4ixps/reloader/topology.py:115-125 | A call is refused as someone else's contract if and only if the local AS is neither seller nor buyer. |
| TopologyCalls.ActivateSucceedsIff | esdx4ixps/reloader/topology.py:143-195 | An activation succeeds if and only if the local AS is a party, all ids, public addresses and the remote can be read, and a port up to `max_port` is free; otherwise it fails with the error that belongs to the first of these. |
| TopologyCalls.DeactivateSucceedsIff | esdx4ixps/reloader/topology.py:197-212 | A deactivation succeeds if and only if the local AS is a party, some interface has the contract's address, and the ESDX router exists. |
| TopologyCalls.DeactivationTakes | esdx4ixps/reloader/topology.py:197-204 | It takes out the first interface with that address, over all routers in order, and no other. |
| TopologyTheorems.ActivationAdds | esdx4ixps/reloader/topology.py:98-195 | An activation appends exactly the contract's interface, naming the other party, to the ESDX router and leaves every other router alone. |
| TopologyTheorems.ApplyKeepsDistinct | esdx4ixps/reloader/topology.py:143-212 | For every configuration one activation or deactivation keeps interface ids and readable public addresses distinct, and ports at or above `min_port`. |
| TopologyTheorems.PickIsReadableIff | esdx4ixps/reloader/topology.py:181-184 | The port picked is from 0 to 65534 if and only if `min_port` is not negative and such a port is free from `min_port`, or from a lower port in use, on. |
| TopologyTheorems.ApplyKeepsAllocated | esdx4ixps/reloader/topology.py:178-187 | It also keeps every public address readable, an activation if and only if such a port is left. |
| TopologyTheorems.RunKeepsAllocated | esdx4ixps/reloader/topology.py:143-244 | Every run keeps ids and readable public addresses distinct and ports at or above `min_port`; a range inside 0 to 65534 keeps every address readable. |
| TopologyTheorems.UnreadablePortBlocks | esdx4ixps/reloader/topology.py:159-166 | After an activation that stored a port outside 0 to 65534, every later activation fails until that contract's address is deactivated. |
| TopologyTheorems.LargePortIsUnreadable | esdx4ixps/reloader/topology.py:181-187 | With the range 70000 to 70000 the first activation on an empty topology stores an address that cannot be read back. |
| TopologyTheorems.ApplyRefines | esdx4ixps/reloader/topology.py:143-212 | One operation on the topology is one operation on the list of active addresses; a deactivation succeeds exactly when the local AS is a party and the address is active. |
| TopologyTheorems.ActiveSet | esdx4ixps/reloader/topology.py:143-244 | After any run the topology is the stock one, plus an ESDX router if and only if something is active, with exactly the active remotes. |
| TopologyTheorems.DeactivateAll | esdx4ixps/reloader/topology.py:197-212 | Deactivating all active contracts, in any order, restores the stock topology. |
| ReloaderLock.Serialisable | esdx4ixps/reloader/topology.py:74-95 | Under every interleaving at most one process is inside, the owner always finds its lock file, the stored topology equals the successful operations in lock order, an operation that raised fails on what some first part of them left, and from a start without a lock file no finished process leaves one. |
| ReloaderLock.OnlyOwnerRemoves | esdx4ixps/reloader/topology.py:74-95 | Only the process that created the lock file removes it; one that gives up leaves it alone. |
| ReloaderLock.GoesThrough | esdx4ixps/reloader/topology.py:214-244 | A process that finds no lock file runs to its end: the result of its operation is stored if there is one, otherwise the topology stays, and the lock file is gone either way. |
| ReloaderLock.GivesUp | esdx4ixps/reloader/topology.py:75-88 | A process that meets the lock file at each of its attempts gives up after exactly that many, and leaves it and the topology alone. |
| ReloaderLock.RunsStayAllocated | esdx4ixps/reloader/topology.py:214-244 | The same under any interleaving: ids and readable addresses distinct, ports at or above `min_port`, and all readable with a range inside 0 to 65534. |
| ReloaderLock.RunsRefineActiveSet | esdx4ixps/reloader/topology.py:214-244 | The active-set theorem under any interleaving. |
| Packet.ParseUnderlay | monitor/bpf/monitor.c:112-154 | Returns the offset of the UDP payload for accepted packets and rejects all others; every read is inside the packet. |
| Packet.ParseScionPath | monitor/bpf/monitor.c:187-216 | Returns the offset of the current hop field, or the one before it. |
| Packet.ParseScion | monitor/bpf/monitor.c:156-185 | Skips the addresses of the SCION header and hands over to the path parser. |
| Packet.ExtractKey | monitor/bpf/monitor.c:229-244 | The whole parse gives the key of the specification, or none, for every byte string. |
| Packet.HopInBounds | monitor/bpf/monitor.c:206-212 | The hop field that is read lies inside the packet, even one before the first. |
| Packet.OnlyScionCounted | monitor/bpf/monitor.c:112-185 | A packet gets a key only if it is UDP over IPv4 with a header length of at least 5 words or over IPv6, to an accepted port, with SCION version 0 and a standard path. |
| Packet.ParserCorrect | monitor/bpf/monitor.c:112-216 | For every frame, with any options, address lengths, segment lengths and hop fields up to the current one at least, the key is that of hop field CurrHF, or CurrHF - 1 when the previous one is asked for; with CurrHF 0 it is then read from the bytes before the hop fields. |
| PacketDecode.CountedIsFrame | monitor/bpf/monitor.c:112-244 | Every byte string that gets a key is the layout of some frame to an accepted port. |
| PacketDecode.ParserIff | monitor/bpf/monitor.c:112-244 | A byte string gets a key if and only if it is the layout of a frame to an accepted port whose key that is. |
| Packet.MonitorsAgree | monitor/bpf/monitor.c:267-281 | A packet that crosses the provider in either direction, its hop field keeping its two interfaces, is counted under the same key by both monitors. |
| Packet.EventRoundTrip | monitor/monitor.go:53-56 | The hop decoded from an event maps back to exactly the key that was reported. |
| Packet.ToMapKeyInjective | monitor/monitor.go:53-56 | Different hops have different keys. |
| Packet.HostSeesInterfaceIds | monitor/monitor.go:239-252 | The host names a hop by the interface ids written in the hop field. |
| Counters.TotalOfUpdate | monitor/bpf/monitor.c:245-250 | One more packet on one CPU adds its size and one to the wrapping sum over all CPUs. |
| Counters.DataPath.Count | monitor/bpf/monitor.c:229-260 | A packet changes only the counter of its key on its CPU, starts a new entry if there was none, and reports only new keys. |
| Counters.DataPath.ReadPerCpuCounters | monitor/monitor.go:177-189 | The sum over CPUs is, modulo 2^64, the bytes and packets counted since the key was last inserted. |
| HopSet.HostMonitor.LogCounters | monitor/monitor.go:191-218 | With the data path at rest, a tick keeps exactly the hops still in the map or whose read failed for another reason, the first with exactly what was counted for them, the others with their old value. |
| HopSet.StepKeepsHeard | monitor/monitor.go:191-252 | A live key that the host knows or will hear of stays so in every step, unless its last report is dropped. |
| HopSet.StepKeepsUnheard | monitor/bpf/monitor.c:245-258 | A key that it does not hear of stays so in every step, until a CPU inserts it. |
| HopSet.TickForgetsMissing | monitor/monitor.go:191-218 | A hop whose key is not in the map while a racing tick lasts, and whose read fails for no other reason, is not known when the tick ends. |
| HopSet.HopAppears | monitor/bpf/monitor.c:244-259 | From an empty map and host, a packet of a new hop makes its key live and the host know it. |
| HopSet.HopIsRead | monitor/monitor.go:194-214 | A tick over a live hop stores the counter it read. |
| HopSet.HopIsDeleted | monitor/monitor.go:199-217 | An evicted hop is found missing by the next tick and deleted. |
| HopSet.NoLiveHopForgotten | monitor/monitor.go:191-252 | If no reservation fails, each key in the map is known to the host and not queued for deletion, or on its way, after every step. |
| HopSet.QuietHostKnowsAll | monitor/monitor.go:220-252 | When nothing is in flight and no tick is running, the host knows every key in the map. |
| HopSet.ForgottenIff | monitor/bpf/monitor.c:218-260 | In any state of any run a key in the map is forgotten if and only if a report of it was dropped while nothing else carried it to the host, and since then it was neither evicted nor inserted by another CPU that had missed it. |
| HopSet.NoneForgottenIff | monitor/bpf/monitor.c:218-260 | A run never forgets a live key if and only if each dropped report of one was harmless: the host knew the key, or its event, or another CPU's report of it, was on the way. |
| HopSet.DroppedReportForgets | monitor/bpf/monitor.c:218-227 | One failed reservation can suffice to miss a key. |

## Left out

- ORM, gRPC, protobuf reflection and message validation; the tables are maps with the unique constraints of their columns, and a transaction is all or nothing.
- ListOffers and GetContract, which only read, and the command-line drivers and experiments.
- The ids of orders and contracts: both are keyed by the sold offer, to which one-to-one columns bind them. Offer rows are values, so `sign_with_broker` and `stamp_signature` return the signed row instead of setting a field.
- RSA, X.509 and the broker key cache: signing takes a salt, and the broker's certificate is taken to accept what its key signs. Nothing is assumed about other keys.
- Formatting of prices: any function from reals to text, the same on both sides.
- IPv6 text: any codec that reads back what it prints, in ASCII without brackets or line ends. IPv4 is concrete, in the form without leading zeros.
- Text outside ASCII: Python's `int` and `\d` accept other decimal digits, which `encode("ascii")` refuses later in every call that stores them.
- The lookup of an AS by its text is a function to the stored row, since the database compares without regard to case.
- Clocks and time zones: times are integers in microseconds, and naive datetimes do not occur.
- Decoding the offer layout as a whole: several of its fields are free text without delimiters, so it is not injective, and only the order layout is claimed to be.
- Distinctness of contract addresses across chains, whose templates may overlap.
- Retried transactions, deadlock detection and other reasons of a database to fail: any transaction may roll back at any point.
- The topology file as bytes, crashes between truncating and writing it, sleeping between attempts, and the consistency check in the constructor of `Topology`.
- TopologyTheorems.ActiveSet: speaks of the list of addresses, which is a set when active contracts have distinct addresses; like the source's removal by remote it needs those addresses to differ from stock remotes, and it needs a stock topology without an ESDX router.
- The numeric meaning of the port filter: ports are compared as the data path loads them, in little-endian order, between a first and a last value given in that order.
- XDP attachment, the redirect to the other port, which key the map evicts, and the internals of the ring buffer; any key may be evicted at any time.
- HopSet.HostMonitor.LogCounters: the data path is at rest during a tick here; ticks racing with it are the step relation of the same module.
- Counters.DataPath.Count: one packet is one step. Two CPUs inserting the same key at the same time, where one insertion is refused, are modelled in `HopSet` but without their counts.
