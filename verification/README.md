# dns-box: verified model

dns-box is a DNS proxy. It answers questions from a cache or from upstream servers, follows CNAMEs,
and inserts the addresses it finds for names that match a rule list into that list's ipset. This
project models its logic in Dafny and proves what the code keeps over whole runs.

Check it with `dafny verify dfyconfig.toml`.

## What is modelled

- **Resolver** (`Resolver.dfy`). The recursive resolver, its cache policy and the upstream loop: a class
  whose methods are proved equal to the function `Resolve`. The network is a function of the running
  number of the exchange, so two equal questions may be answered differently even within one second.
- **Interleaved requests** (`ResolverRuns.dfy`). The same resolver as single steps (one cache lookup, one
  exchange, one return), with any number of requests interleaved, the clock moving and entries evicted at
  any point. A request that runs alone makes exactly the steps of `Resolve`.
  - `ListShape.dfy`: the shape of every list, for every network.
  - `Freshness.dfy`: where every record comes from and how old it is, for every network.
  - `RunsMeaning.dfy` with `ChainSpec.dfy`: against a network that does not change, cache and answers
    are those of a cacheless specification; alias cycles and the depth limit.
  - `QuietPeriod.dfy`: how long a stored answer spares the upstream servers.
- **Cache entries as bytes** (`CacheCodec.dfy`). Expiry header, length-prefixed records, and the cache class
  over them. The resolver's class runs on this cache. How the DNS library packs a record is a parameter,
  bound by the law that unpacking undoes packing; `WireFormat.dfy` holds a codec that obeys it.
- **Server order** (`Servers.dfy`). The in-place exchange sort.
- **Domain rules** (`DomainMatch.dfy`, `RuleConfig.dfy`, `RuleIndex.dfy`, `IndexRuns.dfy`, `Requests.dfy`,
  `EditRaces.dfy`). The flat key set, the lookups made in it, the configuration's rule lists, the API's edits
  of both, runs of requests one after the other, what a request does in the text of its body, and the
  interleaved steps of requests side by side.
- **Serving a message** (`Routing.dfy`, `LogOrder.dfy`). Questions, blocking, the gate and the ipset insertions.
- **Blocklist refresh** (`BlockList.dfy`) and **saving the configuration** (`ConfigSave.dfy`) as step systems
  with the interleavings and crashes the code can meet.

`Text.dfy`, `Bytes.dfy` and `Records.dfy` hold the string operations, numbers as bytes, record types, lifetime
policy and cache keys they share.

## Main results

1. Over any network and any interleaving, a record behind h CNAMEs in a live cached list was fetched at
   most (h + 1) * (3600 + limit) seconds ago, where limit bounds the duration of one request; with
   requests that take no time this is (h + 1) hours. Re-caching of cached tails adds an hour per alias
   and no more. The aliases received must be packable for this; every list is a chain of CNAMEs followed
   by other records without any such condition.
2. Over a network that does not change, every cached list is the meaning of its key as far as it can be
   packed, every answer with code 3 is the meaning of its name, every answer with code 0 is some first
   records of that meaning and what can be packed of the rest, and a server failure happens only when the name has no
   meaning within ten aliases. Names on alias cycles are never cached and always end in a server failure.
   For one request the return code is characterised exactly, in terms of the cache and the chain.
3. The index of a rule list answers every query as the rules mean it if and only if two conditions on the
   list hold; the documented form of rules satisfies them, a suffix rule of three labels alone does not.
4. From every configuration, with or without lists, and over every run of API requests, every index holds
   exactly its rules throughout if and only if each line meets a stated condition where it is applied.
   After such a run an address reaches a list's ipset exactly when the question's name is meant by the
   list's current rules, for every list that meets the two conditions of 3. A configuration whose suffixes
   start with a dot and whose domains do not, as the shipped one, keeps agreement on all such lines. When
   requests interleave, such an index agrees with its rules at rest if and only if for every text the line
   that changed its key last and the line that changed its rule last do the same; this holds whenever no
   two lines with the same text overlap, and a POST that meets a DELETE of the same domain can violate it.
5. No change of the blocklist sources goes without an update, in every interleaving; once no handler is
   about, the updater's own steps lead to rest, and at rest exactly the domains listed by the sources in
   use are blocked. At rest these are the configured sources if and only
   if what was published last was configured when it was published; two concurrent handlers can violate
   that, and the project gives the run.
6. The configuration file stays decodable through every run of edits, saves, errors and power cuts, keeps
   its static sections, and is always its first version or the complete text of a document whose save was
   begun and completed in the run. Between power cuts it is what the save completed last wrote.
7. Once a request stores an answer for a question, positive or negative, no run asks any server that
   question again before five minutes have passed, or before the entry expires if no other request is
   about to store it again; the exceptions are an eviction and a request that was already asking.

8. A reply's answer section is, question by question, what each question's resolution returns: an answer
   without CNAMEs as it came, otherwise its first CNAME and what a request for the target returns. The
   insertions of a message are made once for each cause and in order. The servers are tried in an order
   given exactly, equal ranks included; the first configured one of the best rank comes first.

## Where the code and its documentation differ

The model follows the code.

- README.md:724 says that a record with a lifetime of 30 seconds is kept for 300; the code keeps it for 900
  (`NormalizeTable`).
- README.md:215 says that `.youtube.com` does not match `youtube.com`; the code, and README.md:208, say it does
  (`Intended`, `WellFormedMatches`).
- README.md:208 says that a suffix rule matches its domain and all names below it; for a suffix of three or more
  labels, such as the one at config.json:73, the code misses them (`LongSuffixMissed`).
- README.md:385 shows a request that removes suffixes; it skips one of three or more
  labels unless its last two labels are a stored key (`EffectExact`, `GlobalUndoExact`).
- README.md:248 says that the old field `ipv6name` keeps working; the code only asks whether it is empty, and
  uses the IPv4 name with a 6 as the name of the set (`LegacySets`).
- A cached "no such name" is answered with code 0 and no records, so the first and the second answer to the
  same question differ in their code (`RepeatFromCache`).

## Model

| member | source | states |
|---|---|---|
| Resolver.Handler.Query | internal/dns/handler.go:226-356 | the resolver's answer, code, cache and exchanges are those of the function the results below are about |
| Resolver.Handler.AskServers | internal/dns/handler.go:243-312 | the loop over the sorted servers takes the first usable reply and records every exchange |
| Resolver.Handler.CacheAnswers | internal/dns/handler.go:372-388 | an answer list is stored under its shortest lifetime, normalised; an empty one is not stored |
| Resolver.AskFacts | internal/dns/handler.go:248-307 | servers are asked in order, each at most once, up to the first usable reply |
| Resolver.UsedReplyExact | internal/dns/handler.go:296-307 | the reply used is the first with code 0 or 3; there is none only when every server gave another code or none |
| Resolver.FirstAsked | internal/dns/handler.go:246-248 | the first exchange is with the first configured server of the best rank |
| Resolver.FirstCnameExact | internal/dns/handler.go:333-334 | the CNAME followed is the one of least index in the answer |
| Resolver.AnswerExact | internal/dns/handler.go:309-355 | what a request that misses returns: an answer without CNAMEs as it is, otherwise the CNAME of least index and what a request for its target returns; codes 2 and 3 without records |
| Resolver.BestServerUsed | internal/dns/handler.go:246-312 | every server ranked before the one used was asked and failed; without a reply every configured server failed |
| Resolver.ExchangesBounded | internal/dns/handler.go:226-230 | a request makes at most eleven rounds over the servers |
| Resolver.RequestBounded | internal/dns/handler.go:226-230 | a whole request makes at most eleven times as many exchanges as there are servers |
| Resolver.MinTtlLeast | internal/dns/handler.go:378-383 | the lifetime of a list is the least of its records' |
| Resolver.StoredAfterMiss | internal/dns/handler.go:309-353 | exactly what a request that missed leaves for its own name and until when: its records after success, a negative entry if that name is missing, and otherwise nothing |
| Resolver.FailureStores | internal/dns/handler.go:314-345 | a server failure leaves nothing new in the cache; a missing name leaves one negative entry, for the end of the aliases |
| Resolver.RepeatFromCache | internal/dns/handler.go:232-236 | for five minutes after an answer the same question gets the same records, as far as they can be packed, with success and without any exchange |
| Resolver.NegativeTtlCases | internal/dns/handler.go:314-324 | where the lifetime of a negative answer comes from, including a timeout that wraps around |
| ChainSpec.MeaningUnique | internal/dns/handler.go:333-355 | the cacheless specification gives a name at most one answer |
| ChainSpec.SuccessExact | internal/dns/handler.go:226-356 | a request succeeds if and only if one of the first names of the chain, as far as the depth allows, is cached or answers |
| ChainSpec.FailureExact | internal/dns/handler.go:309-345 | a request that does not succeed reports a missing name if and only if the chain ends in one within the depth, otherwise a server failure |
| ChainSpec.ColdRequestExact | internal/dns/handler.go:226-356 | with nothing of its chain cached a request has code 0 if and only if the chain ends in records within ten aliases, code 3 if and only if it ends in a missing name, and otherwise code 2 |
| ChainSpec.LongChainFails | internal/dns/handler.go:227-230 | with none of its names cached, a chain of more than ten aliases fails with the aliases found and stores nothing |
| ChainSpec.CyclicMeansNothing | internal/dns/handler.go:333-344 | a cyclic alias chain has no answer however far it is followed |
| ResolverRuns.AloneIsResolve | internal/dns/handler.go:226-356 | a request left alone steps to exactly the recursive resolver's outcome |
| ResolverRuns.RequestIsRun | internal/dns/handler.go:85-85 | every call of the recursive resolver is a run of the interleaved system |
| ResolverRuns.RequestsEnd | internal/dns/handler.go:226-230 | in every interleaving a request that gets its steps comes to an end, within a stated number of them |
| Freshness.RunAged | internal/dns/handler.go:333-388 | the provenance and age invariant of cache and requests, over every run and every network whose aliases can be packed |
| Freshness.CachedRecordsFresh | internal/cache/dns_cache.go:29-34 | age of a record in a live cached list by the number of CNAMEs before it |
| Freshness.ReturnedRecordsFresh | internal/dns/handler.go:333-355 | the same for every list a request returns, whatever its code |
| ListShape.RunShaped | internal/dns/handler.go:330-355 | over every run and network, every list is CNAMEs then other records, whatever can be packed |
| Freshness.ListsAreChains | internal/dns/handler.go:330-355 | the same, and linked by owner if the answers' first CNAMEs can be packed and belong to the names asked |
| RunsMeaning.CacheRefinesMeaning | internal/dns/handler.go:226-356 | over every run, cached lists are what can be packed of the cacheless meaning and answers are first records of it followed by what can be packed of the rest; failures are names without one |
| RunsMeaning.CyclesFail | internal/dns/handler.go:227-230 | over every run, cyclic names are never cached and end in a server failure |
| RunsMeaning.ShortChainsSucceed | internal/dns/handler.go:337-341 | over every run, at most ten aliases ending in existing records give the specified list with success, its first records as they are and then what can be packed |
| QuietPeriod.NoQueriesWhileQuiet | internal/dns/handler.go:232-236 | while an entry lives, or for five minutes if a request is about to store it again, no run without its eviction asks any server about it |
| QuietPeriod.StoresExact | internal/dns/handler.go:309-355 | which steps store a list for a key; every other step leaves its entry as it is or removes it |
| QuietPeriod.StoredIsQuiet | internal/dns/handler.go:309-355 | any step that stores a list for a key, positive or negative, starts such a period |
| QuietPeriod.NoQueriesOnceStored | internal/dns/handler.go:232-236 | once a request stores a key, no run without its eviction asks any server about it in that period |
| QuietPeriod.ExpiryWithinHour | internal/cache/dns_cache.go:68-71 | over every run and network, no entry can be served for more than an hour from now |
| Records.NormalizeTtl | internal/dns/handler.go:106-126 | lifetimes lie between 300 and 3600 |
| Records.NormalizeTable | internal/dns/handler.go:101-126 | the policy by cases, and that it is not monotone |
| Records.CacheKeyInjective | internal/dns/handler.go:360-360 | name and type can be read off a cache key, whatever the name contains |
| Records.CacheKeyText | internal/dns/handler.go:360-360 | a cache key is the name, a bar and the type in decimal digits |
| Bytes.ValueOf | internal/cache/dns_cache.go:71-83 | numbers are written with the most significant byte first |
| WireFormat.UncompressedLawful | internal/cache/dns_cache.go:55-76 | the layout of section 3.2.1 of RFC 1035, on records with plain names, obeys the law asked of the library's packing |
| WireFormat.FieldLayout | internal/cache/dns_cache.go:76-76 | the fields of that layout, in order and as numbers |
| CacheCodec.ReadFramesOf | internal/cache/dns_cache.go:42-65 | for every lawful codec the decoder returns exactly the records that packed, in order |
| CacheCodec.ReadWrittenEntry | internal/cache/dns_cache.go:29-40 | an entry reads back up to and including its second of expiry, and not after it |
| CacheCodec.NextFrame | internal/cache/dns_cache.go:45-55 | one frame of any buffer: it advances, stays in bounds, and stops at a frame that does not fit |
| CacheCodec.DecodeRecords | internal/cache/dns_cache.go:42-65 | the decoding loop terminates in bounds on any buffer and collects its records |
| CacheCodec.EncodeRecords | internal/cache/dns_cache.go:73-86 | the encoding loop appends the frames of the records that pack |
| CacheCodec.EntryLayout | internal/cache/dns_cache.go:68-90 | an entry is the second of expiry in eight bytes and then each record that packs after its length in two bytes |
| CacheCodec.DnsCache.Get | internal/cache/dns_cache.go:23-66 | a hit is the stored list; an expired entry is a miss and is deleted; nothing else changes |
| CacheCodec.DnsCache.Set | internal/cache/dns_cache.go:68-90 | stores the records that pack with their expiry; nothing else changes |
| Servers.SortServers | internal/dns/handler.go:441-473 | the in-place sort computes the specified exchange sort and leaves its input alone |
| Servers.SortFacts | internal/dns/handler.go:452-470 | the order is a permutation that never decreases in rank |
| Servers.SortOrder | internal/dns/handler.go:452-470 | servers in rank order stay as they are, and the first one tried is the first configured one of the best rank |
| Servers.SortExact | internal/dns/handler.go:452-470 | the exact order, equal ranks included, by positions: what each pass puts where |
| Servers.NotStable | internal/dns/handler.go:466-468 | two servers of equal rank change places when a better one follows them |
| Servers.RankOfSchemes | internal/dns/handler.go:442-497 | the ranks of all schemes, written out or found by the URL parser, and of servers without one |
| Servers.MentionsExact | internal/dns/handler.go:489-489 | a server has a scheme separator if it is somewhere inside |
| DomainMatch.DomainCache.AddSuffix | internal/cache/domain_cache.go:22-27 | a suffix is stored with its leading dot |
| DomainMatch.DomainCache.ContainsSuffix | internal/cache/domain_cache.go:37-49 | a suffix lookup reads the key of at most the last two labels |
| DomainMatch.DomainCache.Matches | internal/dns/handler.go:209-223 | the lookups made for a name, over all label offsets |
| Text.TrimDotExact | internal/dns/handler.go:209-209 | a name with a dot at its end is looked up without it, any other as it is |
| DomainMatch.SuffixKeyText | internal/cache/domain_cache.go:37-49 | the key of a suffix lookup, in the text of its last two labels |
| DomainMatch.TwoLabelsMatch | README.md:208-208 | a suffix rule of two labels matches the name it spells and every name that ends in a dot and that, and no other |
| DomainMatch.IntendedText | README.md:205-215 | what domain and suffix rules mean, in the text of rule and name |
| DomainMatch.MatchClosedForm | internal/dns/handler.go:215-221 | for every key set the loop over the label offsets is one lookup of the last two labels, and none for one label |
| DomainMatch.LongSuffixNeverHit | internal/cache/domain_cache.go:37-49 | a stored suffix of three or more labels is the key of no suffix lookup, whatever string is looked up |
| DomainMatch.MatchExact | internal/dns/handler.go:203-224 | matching agrees with the meaning of the rules on every query if and only if the two conditions on the rules hold |
| DomainMatch.WellFormedMatches | README.md:205-215 | on rules of the documented form matching is what the documentation says |
| DomainMatch.LongSuffixMissed | config.json:73 | a lone suffix rule of three or more labels misses the name it spells |
| RuleConfig.Config.AddDomain | internal/config/config.go:266-278 | the rules gain the domain once, the lists are untouched |
| RuleConfig.Config.RemoveDomain | internal/config/config.go:280-291 | the rules lose the domain and keep the rest |
| RuleConfig.Config.AddSuffix | internal/config/config.go:293-303 | the rules gain the suffix once |
| RuleConfig.Config.RemoveSuffix | internal/config/config.go:305-315 | the rules lose the suffix and keep the rest |
| RuleConfig.Config.AddDomainToList | internal/config/config.go:369-398 | one list, or the shared rules without lists, gains the domain; a bad index changes nothing |
| RuleConfig.Config.RemoveDomainFromList | internal/config/config.go:401-432 | the same for removing a domain |
| RuleConfig.Config.AddSuffixToList | internal/config/config.go:435-464 | the same for adding a suffix |
| RuleConfig.Config.RemoveSuffixFromList | internal/config/config.go:467-498 | the same for removing a suffix |
| RuleConfig.RemoveUndoesAdd | internal/config/config.go:266-291 | removing a rule undoes adding it and keeps the order of the rest |
| RuleConfig.EditsStayDistinct | internal/config/config.go:266-291 | adding and removing never bring a rule in twice |
| RuleIndex.Handlers.constructor | cmd/dns-box/main.go:81-106 | startup indexes the shared rules and every list |
| RuleIndex.Handlers.AddDomain | internal/api/handlers.go:89-98 | one line of a global request, on rules and keys |
| RuleIndex.Handlers.RemoveDomain | internal/api/handlers.go:266-275 | one line of a global request, on rules and keys |
| RuleIndex.Handlers.AddSuffix | internal/api/handlers.go:298-307 | one line of a global request, on rules and keys |
| RuleIndex.Handlers.RemoveSuffix | internal/api/handlers.go:387-396 | one line of a global request, on rules and keys |
| RuleIndex.Handlers.AddListDomain | internal/api/handlers.go:512-521 | one line of a list's request; other lists and the global index are untouched |
| RuleIndex.Handlers.RemoveListDomain | internal/api/handlers.go:541-550 | one line of a list's request; other lists and the global index are untouched |
| RuleIndex.Handlers.AddListSuffix | internal/api/handlers.go:583-592 | one line of a list's request; other lists and the global index are untouched |
| RuleIndex.Handlers.RemoveListSuffix | internal/api/handlers.go:612-621 | one line of a list's request; other lists and the global index are untouched |
| RuleIndex.Handlers.Handle | internal/api/handlers.go:88-99 | a request body is the sequence of its trimmed, non-blank lines |
| RuleIndex.CallsAreLines | internal/api/handlers.go:88-99 | requests one after the other have the effect of all their lines in order |
| Text.SplitExact | internal/api/handlers.go:88-88 | the lines of a body are the pieces between its newlines |
| Text.TrimExact | internal/api/handlers.go:90-90 | a trimmed line is the text that its white space surrounds |
| Text.SpaceAscii | internal/api/handlers.go:90-90 | the ASCII characters that trimming takes away, the carriage return among them |
| Requests.ListRequestExact | internal/api/handlers.go:502-629 | a POST for a list adds exactly the texts of the body's lines to the list's rules of its kind, a DELETE takes exactly them out; nothing else changes, and nothing at all for a list that does not exist |
| Requests.GlobalRequestExact | internal/api/handlers.go:82-105 | the same for a global request, on an agreeing index of dotted rules and for texts it can handle |
| RuleIndex.ListEditExact | internal/api/handlers.go:502-629 | from agreement a per-list edit ends in agreement if and only if its stated condition holds |
| RuleIndex.GlobalEditExact | internal/api/handlers.go:82-105 | the same for a global edit, which asks the index first |
| RuleIndex.UndottedSuffixStays | internal/api/handlers.go:612-621 | a suffix added and removed without its dot leaves its key behind |
| RuleIndex.EffectExact | internal/api/handlers.go:82-105 | when a global edit takes effect and when its lookup makes it be skipped; a per-list edit always does |
| RuleIndex.GlobalUndoExact | internal/api/handlers.go:298-396 | a global request takes back a suffix that a global request added if and only if the suffix is its own lookup key |
| RuleIndex.LongSuffixStays | internal/api/handlers.go:387-396 | a global request cannot delete a lone suffix rule of three or more labels |
| IndexRuns.EditKeepsAgreement | internal/api/handlers.go:502-629 | from agreement a line of any request ends in agreement if and only if its stated condition holds; with lists it changes only what it names |
| IndexRuns.RunsKeepAgreement | cmd/dns-box/main.go:81-106 | from every configuration and over every run of lines, every index holds exactly its rules throughout if and only if each line is safe where it is applied |
| IndexRuns.RequestsKeepAgreement | internal/api/handlers.go:82-105 | the same over runs of whole requests, and then agreement after every request |
| IndexRuns.DocumentedEditsApply | internal/api/handlers.go:82-105 | on an agreeing index of dotted rules every global edit of the documented form takes effect |
| IndexRuns.DottedRunsAgree | internal/api/handlers.go:502-629 | from a configuration whose suffixes start with a dot and whose domains do not, every run of such lines is safe |
| IndexRuns.RunsMatchAsMeant | internal/dns/handler.go:203-224 | after every safe run a list answers every query as its current rules mean it if and only if these meet the two conditions |
| IndexRuns.WellFormedListMatches | internal/dns/handler.go:203-224 | a list whose own rules and lines have the documented form does, whatever the other lists hold |
| IndexRuns.DocumentedRequests | internal/api/handlers.go:502-629 | over every run of requests of the documented form every index holds exactly its rules, and a list that started in that form matches as its rules mean |
| EditRaces.AloneIsEdit | internal/api/handlers.go:90-98 | the steps of a line that is left alone are the edit made in one go |
| EditRaces.ApartAgrees | internal/api/handlers.go:266-275 | in every interleaving without overlapping lines of the same text, keys and rules agree on every text not in progress |
| EditRaces.RestAgreesExact | internal/api/handlers.go:90-98 | in every interleaving keys and rules agree at rest if and only if each text's key and rule were settled last by lines that do the same |
| EditRaces.AddMeetsDelete | internal/api/handlers.go:266-275 | a request that adds a domain while another deletes it leaves the rule without its key |
| EditRaces.ListAddMeetsDelete | internal/api/handlers.go:512-550 | the same for a list leaves the key without its rule |
| IndexRuns.LegacyEditExact | internal/api/handlers.go:502-629 | without lists, for each of the eight edits the exact condition under which every index of the shared rules stays in agreement |
| Routing.Server.ServeDNS | internal/dns/handler.go:66-99 | the reply, the insertions and the shared state after all questions of a message |
| Routing.Server.ServeQuestion | internal/dns/handler.go:74-94 | one question: blocked, or resolved, gated and processed |
| Routing.Server.ShouldProcess | internal/dns/handler.go:128-165 | the gate opens if and only if some index matches, in whatever order the lists are visited |
| Routing.Server.IsDomainInList | internal/dns/handler.go:203-224 | a list without an index matches nothing; otherwise its index decides |
| Routing.Server.ProcessRecord | internal/dns/handler.go:171-198 | the insertions of one record, list by list |
| Routing.Server.ProcessAnswers | internal/dns/handler.go:167-200 | the insertions are the nested concatenation over records and lists |
| Routing.GateLosesNothing | internal/dns/handler.go:86-89 | without the gate every message is served the same, insertions included |
| Routing.LogExact | internal/dns/handler.go:167-200 | an insertion is made if and only if an unblocked question, one of its addresses and a matching list justify it |
| LogOrder.LogInOrder | internal/dns/handler.go:167-200 | the insertions of a message are made once for each cause, in the order of questions, answers and lists |
| Routing.ReplyExact | internal/dns/handler.go:74-94 | the answer section is, question by question, what its resolution returns, or the record with address 0.0.0.0 of a blocked one |
| Routing.BlockedExactly | internal/dns/handler.go:75-76 | a question is blocked if its name without the dot at the end is a blocked one |
| Routing.Server.ReadsEdited | cmd/dns-box/main.go:81-106 | the server reads the lists and key sets that the API edits |
| Routing.ReplyCodeExact | internal/dns/handler.go:90-93 | the reply carries the code of the last unblocked question that failed, and success if and only if none did |
| Routing.BlockedInvisible | internal/dns/handler.go:76-83 | a message is served as if its blocked questions were not in it, but for one record at most that each adds to the answer |
| Routing.ListTakesMeant | internal/dns/handler.go:203-224 | after every safe run of edits a list takes exactly the names its current rules mean if and only if these meet the two conditions |
| Routing.WireNamesTaken | internal/dns/handler.go:209-223 | a list that meets the two conditions takes a name, with or without its dot at the end, exactly when its current rules mean it |
| Routing.LegacySets | internal/dns/handler.go:176-189 | without lists, addresses go to the set named for IPv4, and IPv6 ones to that name with a 6 if there is a name for IPv6 |
| Routing.InsertionsFollowRules | internal/dns/handler.go:174-183 | for such a list an insertion is justified if and only if the list's current rules mean the question's name |
| BlockList.LoadLines | internal/blocklist/blocklist.go:103-114 | the domains loaded from the lines of a source, and their number |
| BlockList.Service.UpdateLists | internal/blocklist/blocklist.go:69-130 | the new index holds the domains of all readable sources, the total counts the sources read to their end |
| BlockList.HostsLine | internal/blocklist/blocklist.go:104-112 | a hosts line blocks the name after its address, whatever white space is around it and whatever follows |
| BlockList.LineDomainExact | internal/blocklist/blocklist.go:104-112 | a line blocks a domain if and only if it has that form, so comments, blank lines and single words block nothing |
| BlockList.CountedExact | internal/blocklist/blocklist.go:110-124 | the number reported is the number of blocking lines in the sources read to their end |
| BlockList.BlockedExact | internal/blocklist/blocklist.go:74-124 | a domain is loaded if and only if some line of some readable source blocks it |
| BlockList.RunKeeps | internal/blocklist/blocklist.go:49-67 | in every interleaving no change of the sources goes without an update |
| BlockList.RestBlocksListed | internal/blocklist/blocklist.go:132-137 | at rest a domain is blocked if and only if a current source lists it |
| BlockList.WholeUpdate | internal/blocklist/blocklist.go:69-130 | an update that nothing interrupts installs what its sources list |
| BlockList.OwnStep | internal/blocklist/blocklist.go:49-67 | a step of the updater's own uses up work, and one is possible until it has come to rest |
| BlockList.Settles | internal/blocklist/blocklist.go:49-67 | from every state reached, once no handler is about, the updater's own steps lead to rest on the same sources |
| BlockList.Service.UpdateOnRequest | internal/blocklist/blocklist.go:58-59 | taking a waiting request is that update of the step system |
| BlockList.Service.ForceRefresh | internal/blocklist/blocklist.go:140-145 | the request is the handler's last step |
| BlockList.Service.UpdateURLs | internal/blocklist/blocklist.go:148-150 | the change of sources is the handler's publishing |
| BlockList.Service.BlocksListed | internal/blocklist/blocklist.go:132-137 | at rest the service blocks exactly what its sources list |
| BlockList.RestUsesConfigured | internal/api/handlers.go:345-349 | at rest the sources in use are the configured ones if and only if those published last were configured when they were published |
| BlockList.HandlerAlone | internal/api/handlers.go:345-371 | a handler that no other meets puts its source in use, or takes it out, and leaves the others |
| BlockList.PublicationRace | internal/api/handlers.go:367-371 | two handlers can leave a configured source out of use at rest |
| ConfigSave.SaveConfig | internal/config/config.go:133-220 | a save succeeds if and only if no operation fails, and the file holds the old or the complete new text at every moment |
| ConfigSave.AlwaysDecodable | internal/config/config.go:187-220 | over every run with errors and power cuts the file decodes and keeps its static sections |
| ConfigSave.SavedIsLoaded | internal/config/config.go:171-185 | after a save, loading gives the sections in memory |
| ConfigSave.SavedSurvives | internal/config/config.go:133-220 | what was in memory when a save was completed is there again after a power cut that keeps the file and a restart |
| ConfigSave.OldOrComplete | internal/config/config.go:187-220 | over every run, the file and every version a power cut may bring back is the first one or the complete text of a document whose save was begun and completed |
| ConfigSave.LastSavedStands | internal/config/config.go:187-220 | between power cuts the file is what the save completed last wrote; a power cut leaves it or brings back an earlier version unharmed |

## Left out

- The exchanges themselves (UDP, TCP, TLS, HTTPS), URL and host parsing: the network is a function of the exchange's number, server, name, type and time; the scheme a URL parser finds is a parameter.
- The name asked upstream is the name resolved; making it fully qualified is part of the network function.
- Resolver.Handler.Query: takes one clock value for the whole request and is not interrupted; interleaving and passing time are modelled by the step system, which the call is proved to be a run of.
- Freshness.RunAged: assumes that the aliases received can be packed again, and that no request takes longer than a limit; so do the age bounds drawn from it. A dropped alias would break the chain of names.
- IndexRuns.RequestsKeepAgreement: takes requests one after the other, and so do the matching and routing results; requests side by side are the subject of EditRaces.
- EditRaces.RestAgreesExact: covers rules and lines of the dotted form, on one index at a time, without the second index that the deprecated single list makes; a single change of the key set or of the rules is one step, as the locks make it.
- WireFormat.UncompressedLawful: covers names of plain printable characters; escaped octets, compression pointers, empty names and the inner layout of types other than CNAME, A and AAAA are not modelled. The cache and the results over runs hold for every codec that obeys the law, on records in the text form in which the library reads them off the wire.
- CacheCodec.DnsCache.Get: is stated for caches filled by Set and for clock values below 2^62; damaged buffers are covered by the decoding methods.
- The memory limits and eviction policy of the cache library: the step system allows any eviction; the key sets of rules and blocklist lose nothing.
- CacheCodec.DnsCache.Set: always stores; the cache library does not store a value of 64 KB or more and keeps what the key held before, which an eviction does not cover.
- QuietPeriod.StoredIsQuiet: excludes other requests that are already asking for the key when it is stored; they go on.
- The text form of addresses, and what the kernel does with an address inserted again: the insertions are kept as a log of octets.
- The API's net lists, read requests, path dispatch and JSON text; a request's lines and an error-free save are what the index depends on.
- ConfigSave.AlwaysDecodable: treats the text form as an abstract pair of functions that round-trip; the GitHub copy made after a save is not modelled.
- BlockList.RunKeeps: treats a source's content as fixed during a run; data races on the fields themselves are not modelled.
- Log output, server start and stop, EDNS options and the reply header.
