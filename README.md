# CrispLib core in Dafny

This project models the record-handling core of CrispLib, a bibliographic search toolkit, and proves properties of the model. CrispLib talks to library catalogues over two protocols, OAI-PMH and SRU, and to the IxTheo theology index, and turns what they return into one bibliographic record type. Its command-line tool then builds queries and prints records as RIS, BibTeX keys, Zotero items or plain text.

Four source files make up the core. Each has one or more modules here:

- `oai_pmh_library.py`, the OAI-PMH client:
  - `oai_harvest.dfy` covers the query string, the resumption-token loop, and the `ListIdentifiers`, `ListRecords` and `GetRecord` requests, including `noRecordsMatch` and `completeListSize`;
  - `oai_records.dfy` and `oai_dispatch.dfy` cover the record dictionary, the per-prefix parser registry and the fallback to an error record;
  - `oai_dublin_core.dfy`, `oai_marc.dfy`, `oai_mods.dfy` and `oai_generic.dfy` are the Dublin Core, MARC 21, MODS and fallback parsers;
  - `oai_search.dfy` is the client-side keyword filter of `search`.
- `sru_library.py`, the SRU client:
  - `sru_client.dfy` covers the `searchRetrieve` URL, the raw records of a response envelope and the first-match lookup helpers;
  - `sru_dispatch.dfy` covers the parser registry and the per-record dispatch with its fallbacks;
  - `sru_rdf.dfy` is the RDF/XML parser with its duplicate-suppressing `seen` sets.
- `ixtheo_library.py`, the IxTheo client:
  - `ixtheo_ris.dfy` is the RIS-to-BibTeX converter;
  - `ixtheo_search.dfy` covers search parameters, record building, the page loop and the search-type choice;
  - `ixtheo_export.dfy` covers `get_record_with_export` and the publisher split of the detail page.
- `library_search.py`, the command-line tool:
  - `sru_query.dfy` is `build_sru_query`;
  - `citation.dfy` covers `bibtex_escape` and `clean_key`;
  - `record_format.dfy` covers the RIS, text and Zotero formatters and the SRU paging hint.

Shared modules:

- `wrappers.dfy` has `Option`.
- `text.dfy` has the Python string operations the code uses: `strip`, `split`, `join`, `replace`, `lower`, `int()` and `str()`. It also has one hand-written scanner per regular expression the code uses.
- `xml.dfy` has an already-parsed XML tree and the subset of ElementTree's path language the parsers use.
- `biblio.dfy` has the record type and the outcome types.

Modelling conventions:

- **Servers are functions.** A remote server (the OAI-PMH repository, the SRU endpoint, the IxTheo search page) is a pure function from the request to the parsed response. `Failed` stands for every way the request, the status check or the parse can raise.
- **Exceptions are values.**
  - A parser's outcome is `Parsed(record)`, `NoRecord` or `Raised`.
  - Code that can raise returns `Attempt<T>`, which is `Returned(v)` or `Threw`.
- **Loops stay loops.** Loops in the source are methods with `while` loops. Each method is proved against a specification function defined by recursion on the input. The properties the source promises are lemmas about that function.
- **Registries are classes.** The two parser registries are classes whose `register` methods update a map field.
- **Missing attributes.** A record's `editors` is `None` when the record class declares no `editors` attribute, which is the case for every record the clients build.

## Model

| member | source | states |
|---|---|---|
| Text.LStripSpec | oai_pmh_library.py:892 | `lstrip` removes exactly a leading run of white space: the result is a suffix, what went is all white space, and the result does not start with white space |
| Text.StripIdempotent | oai_pmh_library.py:892-893 | stripping twice gives the same text as stripping once |
| Text.JoinSplit | ixtheo_library.py:530-535 | joining the pieces of a split with the same separator gives the text back |
| Text.Words | library_search.py:465 | `split()` yields only non-empty runs without white space |
| Text.KeepDigitsX | oai_pmh_library.py:751-759 | deleting all but digits and `X` leaves only those characters, never lengthens the text, and leaves a text of digits and `X` only unchanged |
| Text.FindYear | oai_pmh_library.py:899 | a year is found exactly when a four-digit word starting with `1` or `20` occurs (the year pattern of the date fields), and it is the text of such a match |
| Text.FindYear20th | ixtheo_library.py:542 | a year is found exactly when a four-digit word starting `19` or `20` occurs, and it is four characters starting `19` or `20` |
| Text.FindFourDigits | ixtheo_library.py:993 | a year is found exactly when four consecutive digits occur, and it is four digits |
| Text.IsbnRun | oai_pmh_library.py:922 | an ISBN is found exactly when a digit followed by an ISBN character occurs; the match starts at the leftmost such digit and runs to the end of the maximal run of digits, `-` and `X` (also `x` when case is ignored) after it |
| Text.CleanTitleEnds | oai_pmh_library.py:1049 | a cleaned title ends in none of `/`, white space, `:` and `.` |
| Text.CleanAuthorName | sru_library.py:910 | dropping a final comma never lengthens the stripped name |
| Text.DropBracketYear | sru_library.py:1033 | dropping a final bracketed year never lengthens the text |
| Text.SignedParse | oai_pmh_library.py:666 | `int` of a minus sign and digits is the negated value of the digits |
| Text.IntToStringRoundTrip | oai_pmh_library.py:666 | `int` reads back every integer its decimal rendering writes |
| Xml.FindPath | oai_pmh_library.py:891 | `find` returns an element exactly when the path selects one, and then the first selected |
| Xml.LastNonBlank | oai_pmh_library.py:1010-1012 | the last non-blank text, stripped, is never empty |
| Xml.CollectNonBlank | oai_pmh_library.py:891-893 | the loop keeps the stripped text of every element with non-blank text, in order |
| Xml.CollectTruthy | oai_pmh_library.py:488-490 | the loop keeps the text of every element with any text, in order |
| Xml.CollectTruthyStripped | oai_pmh_library.py:993-998 | the loop keeps the stripped text of every element with any text, in order |
| Xml.OverwriteNonBlank | oai_pmh_library.py:1010-1012 | the variable ends as the last non-blank stripped text, or keeps its value when there is none |
| Text.TakeWordConcat | library_search.py:465 | the first word of a concatenation ends inside the first part unless that part is all one word, in which case the word runs on into the second part |
| Text.WordsOfWord | library_search.py:465 | a non-empty text without white space splits into itself alone |
| Text.WordsAtSpace | library_search.py:465 | a white-space character separates words: the words of `a`, a space and `b` are the words of `a` followed by the words of `b` |
| Text.WordsJoin | library_search.py:465-467 | splitting words joined by single blanks gives back the same words, in order |
| Text.KeepDigitsXOne | oai_pmh_library.py:751-759 | one character is kept exactly when it is a digit or `X` |
| Text.KeepDigitsXConcat | oai_pmh_library.py:751-759 | the deletion works character by character: it distributes over concatenation, so the kept characters stay in their order |
| Text.KeepDigitsXSkips | oai_pmh_library.py:751-759 | a character other than a digit or `X` leaves no trace wherever it stands |
| Text.NoCharInside | ixtheo_library.py:530-535 | a text that does not contain a character holds it at no index |
| Text.CharFreeNotContains | ixtheo_library.py:530-535 | a text that holds a character at no index does not contain it |
| Text.SplitCons | ixtheo_library.py:530-531 | splitting at a character: a separator-free head followed by the separator is the first piece, and the rest splits on its own |
| Text.SplitSnoc | ixtheo_library.py:530-533 | splitting at a character: the separator-free text after the last separator is the last piece |
| OaiRecords.RecordOf | oai_pmh_library.py:801-836 | `None` exactly when the record has no header; otherwise the prefix and the serialised record are kept, every set name is non-empty, and the identifier is the header's identifier text or `unknown` |
| OaiRecords.ProcessRecordElement | oai_pmh_library.py:801-840 | `_process_record_element` returns the specified dictionary |
| OaiRecords.Unparseable | oai_pmh_library.py:1072-1081 | the record a parser returns without a metadata root keeps the identifier and the raw XML and is titled `Unparseable Record <id>` |
| OaiDispatch.ErrorRecord | oai_pmh_library.py:856-864 | the record built when the parser raised keeps the identifier and the raw XML and is titled `Error Processing Record <id>` |
| OaiDispatch.ToBiblioRecord | oai_pmh_library.py:842-864 | `None` exactly when the chosen parser returns `None`; the error record exactly when it raises; otherwise the parser's record |
| OaiDispatch.ParserRegistry.constructor | oai_pmh_library.py:1068-1069 | the registry starts with the five built-in prefixes registered by the decorators |
| OaiDispatch.ParserRegistry.Register | oai_pmh_library.py:106-112 | `register_parser` maps the prefix to the parser and leaves the other prefixes alone |
| OaiDispatch.ParserRegistry.Convert | oai_pmh_library.py:842-864 | conversion through the registry is `_to_biblio_record` over its current parsers |
| OaiDispatch.CustomFirst | oai_pmh_library.py:846-851 | a custom parser wins over whatever the registry holds for the prefix |
| OaiDispatch.RegistryNext | oai_pmh_library.py:847-851 | without a custom parser, a registered prefix uses its registered parser |
| OaiDispatch.GenericLast | oai_pmh_library.py:853-864 | an unregistered prefix falls back to the generic parser, whose exception becomes the error record |
| OaiDispatch.BuiltinTotal | oai_pmh_library.py:842-864 | with the built-in registry every harvested record converts to some record carrying its identifier and raw XML |
| OaiDispatch.MarcPrefixIsGeneric | oai_pmh_library.py:1212-1213 | the prefix `marc` is not registered, so it goes to the generic parser |
| OaiDispatch.RegisterEffect | oai_pmh_library.py:106-112 | after registering a parser its prefix runs it, and every other prefix behaves as before |
| OaiHarvest.QueryItems | oai_pmh_library.py:350-352 | one `k=v` item per parameter, in insertion order |
| OaiHarvest.QueryStringSplits | oai_pmh_library.py:350-352 | when no key or value holds `&`, splitting the query string on `&` gives back exactly the `k=v` items |
| OaiHarvest.ListParams | oai_pmh_library.py:426-436 | `verb` and `metadataPrefix` come first; `set`, `from` and `until` are present exactly when their argument is truthy, with that value |
| OaiHarvest.ResumptionToken | oai_pmh_library.py:387-388 | a token is only reported when its text is non-empty |
| OaiHarvest.FollowChain | oai_pmh_library.py:367-399 | after k turns that each got a page, the result is what was collected so far followed by what the loop collects from the k-th URL on |
| OaiHarvest.FollowPages | oai_pmh_library.py:364-401 | the `while` loop returns exactly the items the recursive specification collects, for any way of answering a request |
| OaiHarvest.FollowResumptionToken | oai_pmh_library.py:354-401 | `_follow_resumption_token` against a server returns the specified items |
| OaiHarvest.RequestsBounded | oai_pmh_library.py:367 | never more requests than `max_requests` (none when it is negative) |
| OaiHarvest.FollowIsConcatenation | oai_pmh_library.py:375-384 | the result is the items of the requested pages, concatenated in request order |
| OaiHarvest.FollowBounded | oai_pmh_library.py:354-401 | both of the above for a concrete server: bounded requests, results are the pages' items in order |
| OaiHarvest.NextUrlShape | oai_pmh_library.py:388-391 | a follow-up URL exists only with a token and a `verb=` in the URL, and is base + `?verb=` + verb + `&resumptionToken=` + token, where the base is a `?`-free prefix and the verb is `&`-free |
| OaiHarvest.NoTokenStops | oai_pmh_library.py:392-393 | a page without a token ends the loop after one request, returning that page's items |
| OaiHarvest.Cap | oai_pmh_library.py:478-480 | the number of headers visited: all when `max_results` is missing or 0, none when it is negative, else the smaller of it and the count |
| OaiHarvest.HeaderEntry | oai_pmh_library.py:482-497 | a header gives at most one entry, and only a header entry |
| OaiHarvest.HeaderEntries | oai_pmh_library.py:478-497 | no more entries than headers, all of them header entries |
| OaiHarvest.ErrorEntries | oai_pmh_library.py:465-472 | the error result is empty exactly when the code is `noRecordsMatch` |
| OaiHarvest.ListIdentifiersShape | oai_pmh_library.py:458-509 | a failed request gives the single failure entry; without an OAI error, only header entries, at most `max_results` of them when positive |
| OaiHarvest.CollectHeaders | oai_pmh_library.py:475-497 | the header loop returns the entries of the first `Cap` headers |
| OaiHarvest.ReadHeader | oai_pmh_library.py:482-497 | one header turns into the specified entry: one entry when it has an identifier, none otherwise |
| OaiHarvest.ListIdentifiers | oai_pmh_library.py:403-509 | `list_identifiers` (without Sickle) returns the specified entries |
| OaiHarvest.GetRecordOf | oai_pmh_library.py:524-557 | a returned record carries the resolved metadata prefix (argument, else the default) |
| OaiHarvest.GetRecord | oai_pmh_library.py:511-561 | `get_record` (without Sickle) returns the specified record or `None` |
| OaiHarvest.Converted | oai_pmh_library.py:648-656 | at most one record per visited element |
| OaiHarvest.ListRecordsShape | oai_pmh_library.py:628-670 | a failed request or an OAI error gives `(0, [])`; otherwise at most `Cap` records, and without a token the count is the number of record elements |
| OaiHarvest.CompleteListSizeCounts | oai_pmh_library.py:659-668 | a token whose `completeListSize` is a decimal integer makes that integer the count |
| OaiHarvest.ConvertRecords | oai_pmh_library.py:645-656 | the record loop returns the converted records of the first `Cap` elements |
| OaiHarvest.ConvertElement | oai_pmh_library.py:652-656 | one record element turns into the specified records: at most one, none when processing or conversion yields nothing |
| OaiHarvest.ListRecords | oai_pmh_library.py:563-674 | `list_records` (without Sickle) returns the specified count and records |
| OaiHarvest.CompleteListSize | oai_pmh_library.py:658-668 | the count is `completeListSize` when the token has text and the attribute parses, else the number of elements |
| OaiHarvest.ListIdentifiersOf | oai_pmh_library.py:403-500 | `list_identifiers` returns at most a positive `max_results` entries and no header entry for a negative one |
| OaiHarvest.ListRecordsOf | oai_pmh_library.py:563-674 | `list_records` returns at most a positive `max_results` records and none for a negative one |
| OaiDublinCore.DatesScan | oai_pmh_library.py:1107-1118 | after the date loop the year (if any) has four digits and the created date (if any) is non-empty |
| OaiDublinCore.FirstNonBlank | oai_pmh_library.py:1117-1118 | a value is found exactly when some element has non-blank text |
| OaiDublinCore.FirstYearSnoc | oai_pmh_library.py:1112-1114 | the year of a longer list is the earlier year if there was one, else the new element's year |
| OaiDublinCore.FirstNonBlankSnoc | oai_pmh_library.py:1116-1118 | the created date of a longer list is the earlier one if there was one, else the new element's stripped text |
| OaiDublinCore.DatesScanFirst | oai_pmh_library.py:1107-1118 | the loop's year is the first year found in any date, and its created date is the first non-blank date, whatever comes later |
| OaiDublinCore.IdStep | oai_pmh_library.py:1155-1177 | one turn of the identifier loop keeps every URL starting with `http` and every ISBN a digit followed by ISBN characters, and adds at most one URL |
| OaiDublinCore.IdsScan | oai_pmh_library.py:1155-1177 | after the identifier loop all URLs start with `http`, the identifier is non-empty, the ISBN is a digit run of at least two, and there are no more URLs than identifiers |
| OaiDublinCore.IdStepIdentifier | oai_pmh_library.py:1159-1161 | a turn sets the identifier only when none was held and the text is non-blank |
| OaiDublinCore.IdsScanIdentifier | oai_pmh_library.py:1155-1161 | the primary identifier is the first non-blank `dc:identifier` |
| OaiDublinCore.SourcePlace | oai_pmh_library.py:1183-1188 | a place is found exactly when the source is non-empty, does not start with `:` and holds a `:`; it is the stripped text before the first `:` |
| OaiDublinCore.DublinCore | oai_pmh_library.py:1070-1208 | `parse_dublin_core`: the identifier and raw XML are kept; no metadata root gives the unparseable record; title (or `Untitled`), creators then contributors, first year, first date, first identifier, `http` URLs and the place come from the named elements |
| OaiDublinCore.ScanDates | oai_pmh_library.py:1103-1118 | the date loop computes the specified year and created date |
| OaiDublinCore.ScanIdentifiers | oai_pmh_library.py:1150-1177 | the identifier loop computes the specified identifier, URLs, ISBN and ISSN |
| OaiDublinCore.ParseDublinCore | oai_pmh_library.py:1070-1208 | the method with its loops returns the specified record |
| OaiMarc.FirstTruthyStripped | oai_pmh_library.py:1261-1268 | `get_subfield` raises exactly when no namespaced subfield with the code has text (its fallback path is one ElementTree rejects) |
| OaiMarc.GetSubfield | oai_pmh_library.py:1260-1268 | the early-return loop returns the specified stripped text or raises |
| OaiMarc.Subdivisions | oai_pmh_library.py:1369-1373 | the subdivision loop of a 6XX field completes exactly when every code's lookup does |
| OaiMarc.SubdivisionsStep | oai_pmh_library.py:1369-1373 | one more code appends `a -- subvalue` when the subvalue is non-empty, and raises when its lookup raises |
| OaiMarc.SubdivisionsThrew | oai_pmh_library.py:1370 | one raising lookup makes the whole 6XX field raise |
| OaiMarc.SubjectField | oai_pmh_library.py:1364-1373 | a 6XX field completes exactly when `$a` and all seven subdivision lookups do, without touching authors or title |
| OaiMarc.PublicationField | oai_pmh_library.py:1302-1316 | a 260/264 field completes exactly when `$a`, `$b` and `$c` lookups do, without touching authors or title |
| OaiMarc.TitleField | oai_pmh_library.py:1275-1287 | a 245 field completes exactly when `$a` and `$b` lookups do, without touching authors |
| OaiMarc.AuthorField | oai_pmh_library.py:1290-1299 | a 100/700 field completes exactly when `$a`'s lookup does, and appends at most `$a` to the authors |
| OaiMarc.SingleField | oai_pmh_library.py:1319-1379 | the single-valued fields (020 … 856) never touch authors or title |
| OaiMarc.MarcField | oai_pmh_library.py:1271-1379 | one turn of the field loop: the authors grow by exactly the field's 100/700 `$a`; a field without a tag raises |
| OaiMarc.MarcFieldTitle | oai_pmh_library.py:1271-1379 | a 245 field completes iff both its `$a` and its `$b` exist; no field but a 245 changes the title |
| OaiMarc.MarcFields | oai_pmh_library.py:1271-1379 | when the loop completes, the authors are the 100/700 `$a` values in field order |
| OaiMarc.MarcXml | oai_pmh_library.py:1214-1399 | `parse_marcxml`: no metadata root gives the unparseable record; no namespaced datafield raises (the fallback path); a parsed record keeps identifier and raw XML, has no format, and its authors are the 100/700 values in order |
| OaiMarc.ScanSubdivisions | oai_pmh_library.py:1369-1373 | the `for code in …` loop computes the specified entries or raises |
| OaiMarc.ProcessTitle | oai_pmh_library.py:1275-1287 | the 245 branch computes the specified state |
| OaiMarc.ProcessAuthor | oai_pmh_library.py:1290-1299 | the 100/700 branches compute the specified state |
| OaiMarc.ProcessPublication | oai_pmh_library.py:1302-1316 | the 260/264 branch computes the specified state |
| OaiMarc.ProcessSingle | oai_pmh_library.py:1319-1379 | the single-valued branches compute the specified state |
| OaiMarc.ProcessSubject | oai_pmh_library.py:1364-1373 | the 6XX branch computes the specified state |
| OaiMarc.ProcessDatafield | oai_pmh_library.py:1272-1379 | the `if/elif` chain on the tag computes the specified state |
| OaiMarc.ParseMarcXml | oai_pmh_library.py:1214-1399 | the method with its field loop returns the specified outcome |
| OaiMarc.MarcFieldsThrewStays | oai_pmh_library.py:1271-1379 | once a field raises, the whole parse raises, whatever fields follow |
| OaiMods.ModsTitle | oai_pmh_library.py:1422-1430 | `Untitled` without title text; the stripped title when there is no subtitle text; otherwise the stripped title, `: ` and the stripped subtitle |
| OaiMods.NameAuthor | oai_pmh_library.py:1434-1453 | a name gives at most one author, a non-empty one, and gives one exactly when it has no role or an author role and some non-blank `namePart` |
| OaiMods.NameAuthors | oai_pmh_library.py:1433-1453 | at most one author per name, none of them empty |
| OaiMods.Labelled | oai_pmh_library.py:1514-1521 | a labelled subject entry contributes at most one line |
| OaiMods.SubjectsOf | oai_pmh_library.py:1507-1521 | at most three entries (topic, geographic, name) per subject |
| OaiMods.ModsIdStep | oai_pmh_library.py:1536-1546 | a turn of the identifier loop adds at most one URL, and only for a non-blank identifier whose type is neither `isbn` nor `issn` |
| OaiMods.ModsIdsScan | oai_pmh_library.py:1536-1546 | no more URLs than identifiers |
| OaiMods.OriginOf | oai_pmh_library.py:1456-1484 | without `originInfo`, year, publisher, place and edition are all absent |
| OaiMods.ModsRecordOf | oai_pmh_library.py:1404-1570 | `parse_mods`: identifier and raw XML kept; the unparseable record without a metadata root; else the title rule, the author names in order (none empty) and at most one URL per identifier or location URL |
| OaiMods.NameAuthorOf | oai_pmh_library.py:1435-1453 | the role test and the `namePart` loop compute the specified author |
| OaiMods.ScanNames | oai_pmh_library.py:1433-1453 | the name loop computes the specified authors |
| OaiMods.SubjectHeadings | oai_pmh_library.py:1509-1521 | one subject's topic, geographic and name entries, in that order |
| OaiMods.ScanSubjects | oai_pmh_library.py:1507-1521 | the subject loop computes the specified entries |
| OaiMods.ScanIdentifiers | oai_pmh_library.py:1532-1551 | the identifier loop computes the specified ISBN, ISSN and URLs |
| OaiMods.ParseMods | oai_pmh_library.py:1404-1570 | the method with its loops returns the specified record |
| OaiGeneric.Assemble | oai_pmh_library.py:1049-1064 | the generic record keeps identifier and raw XML, has no `editors`, takes authors, URLs and subjects as collected, and its title no longer ends in `/`, `:`, `.` or white space |
| OaiGeneric.RawYear | oai_pmh_library.py:896-901 | a year found in a date's raw text has four digits |
| OaiGeneric.GenericDc | oai_pmh_library.py:884-928 | the Dublin Core branch: the stripped title or `Untitled Record`, the non-blank creators, the year of the first date, and only `http` URLs |
| OaiGeneric.GenericModsName | oai_pmh_library.py:937-945 | a name contributes an author exactly when its role is absent or an author role and its first `namePart` has text |
| OaiGeneric.GenericModsNames | oai_pmh_library.py:937-945 | at most one author per name |
| OaiGeneric.GenericModsTopics | oai_pmh_library.py:965-968 | at most one topic per subject |
| OaiGeneric.GenericModsIdStep | oai_pmh_library.py:973-979 | a turn adds at most one URL and only for type `uri`; the ISBN changes only for type `isbn`, the ISSN only for type `issn` (case-sensitive) |
| OaiGeneric.GenericModsIds | oai_pmh_library.py:973-979 | no more URLs than identifiers |
| OaiGeneric.GenericMods | oai_pmh_library.py:930-979 | the MODS branch: the first `mods:title` or `Untitled Record`, at most one author per name, at most one URL per identifier, the year of the first `dateIssued` |
| OaiGeneric.LastRawYear | oai_pmh_library.py:1016-1020 | the year the `$c` loop keeps has four digits |
| OaiGeneric.LastIsbn | oai_pmh_library.py:1024-1028 | the ISBN the `$a` loop keeps starts with a digit and has at least two characters |
| OaiGeneric.GenericTitle | oai_pmh_library.py:991-1000 | a 245 field changes only the title, to the truthy `$a` then `$b` texts joined by spaces |
| OaiGeneric.GenericMarcField | oai_pmh_library.py:987-1046 | a field raises exactly when it has no tag; only a 020 changes the ISBN, a 022 the ISSN, a 245 the title |
| OaiGeneric.GenericMarc | oai_pmh_library.py:981-1064 | the MARC branch raises without namespaced datafields; it returns only when both a 020 and a 022 bound `isbn` and `issn`; the record keeps identifier and raw XML, and a year has four digits |
| OaiGeneric.GenericParse | oai_pmh_library.py:866-1064 | `_generic_parse` raises without a metadata root or for an unknown prefix (unbound `isbn`), returns for Dublin Core and MODS, and any record keeps identifier and raw XML with a four-digit year if any |
| OaiGeneric.GenericMarcFieldsYear | oai_pmh_library.py:1016-1020 | the field loop's year has four digits |
| OaiGeneric.GenericMarcFieldsBind | oai_pmh_library.py:1023-1034 | an ISBN after the field loop needs some 020 field, an ISSN some 022 field |
| OaiGeneric.GenericMarcNeedsBothTags | oai_pmh_library.py:1052-1060 | a MARC record parses only when its datafields include both a 020 and a 022 |
| OaiGeneric.GenericMarcFieldsThrew | oai_pmh_library.py:987-1037 | the field loop raises exactly when some field has no tag |
| OaiGeneric.GenericMarcThrewStays | oai_pmh_library.py:987-1046 | once a field raises, the loop raises whatever follows |
| OaiGeneric.GenericMarcTitleOnly245 | oai_pmh_library.py:991-1046 | a tagged field other than 245 returns and leaves the title alone |
| OaiGeneric.ScanGenericModsNames | oai_pmh_library.py:937-945 | the name loop computes the specified authors |
| OaiGeneric.ReadModsName | oai_pmh_library.py:938-945 | one MODS name turns into the specified authors: its stripped name part when it has no role or an author/creator role |
| OaiGeneric.ScanGenericModsTopics | oai_pmh_library.py:965-968 | the subject loop computes the specified topics |
| OaiGeneric.ScanGenericModsIds | oai_pmh_library.py:971-979 | the identifier loop computes the specified ISBN, ISSN and URLs |
| OaiGeneric.ScanRawYears | oai_pmh_library.py:1016-1020 | the `$c` loop keeps the last year found, else the earlier year |
| OaiGeneric.ScanIsbns | oai_pmh_library.py:1024-1028 | the `$a` loop of a 020 keeps the last ISBN found, else the earlier one |
| OaiGeneric.ProcessGenericTitle | oai_pmh_library.py:991-1000 | the 245 branch computes the specified state |
| OaiGeneric.ProcessGenericPublication | oai_pmh_library.py:1009-1020 | the 260/264 branch computes the specified state |
| OaiGeneric.ProcessGenericField | oai_pmh_library.py:987-1046 | the `if/elif` chain on the tag computes the specified state or raises |
| OaiGeneric.ParseGenericMarc | oai_pmh_library.py:981-1064 | the MARC branch with its loops returns the specified outcome |
| OaiGeneric.ParseGenericDc | oai_pmh_library.py:884-928 | the Dublin Core branch with its loops returns the specified fields |
| OaiGeneric.ParseGenericMods | oai_pmh_library.py:930-979 | the MODS branch with its loops returns the specified fields |
| OaiGeneric.ParseGeneric | oai_pmh_library.py:866-1064 | `_generic_parse` returns the specified outcome |
| OaiSearch.Filtered | oai_pmh_library.py:716-765 | the matching records, in order, never more than were harvested |
| OaiSearch.Limit | oai_pmh_library.py:764-767 | the filter loop stops after at least one kept record and not before `max_results` of them |
| Wrappers.PyPrefix | oai_pmh_library.py:713 | Python's `records[:n]`: the first n for 0 ≤ n ≤ length, everything for larger n, and all but the last −n for negative n |
| OaiSearch.Take | oai_pmh_library.py:764-767 | the first k elements, or all of them when there are fewer |
| OaiSearch.AnyElementContains | oai_pmh_library.py:728-732 | the inner author/subject loop finds a match exactly when some element contains the term, case-insensitively |
| OaiSearch.CheckCriterion | oai_pmh_library.py:723-762 | one criterion of the `if/elif` chain holds exactly as specified |
| OaiSearch.RecordMatches | oai_pmh_library.py:720-762 | the criterion loop with its `break` keeps the record exactly when every criterion holds |
| OaiSearch.FilterRecords | oai_pmh_library.py:716-767 | the record loop returns the first `Limit` matching records, in order |
| OaiSearch.Search | oai_pmh_library.py:676-769 | `search` returns the specified count and records |
| OaiSearch.FilteredMembers | oai_pmh_library.py:716-765 | a record is in the filtered list exactly when it was harvested and matches |
| OaiSearch.FilteredPrefix | oai_pmh_library.py:716-765 | filtering a prefix gives a prefix of the filtered list |
| OaiSearch.FilteredConcat | oai_pmh_library.py:716-765 | filtering distributes over concatenation |
| OaiSearch.SearchFilters | oai_pmh_library.py:700-769 | with a query, the count is the number returned, at most `Limit`, the records are a prefix of the matching harvested ones and each matches |
| OaiSearch.SearchWithoutQuery | oai_pmh_library.py:708-713 | with no query, nothing harvested gives `(0, [])`, else `min(count, max_results)` and the first `max_results` records |
| OaiSearch.SearchHarvestsDouble | oai_pmh_library.py:700-706 | the search harvests at most `2 * max_results` records |
| OaiSearch.UnknownFieldNeverDrops | oai_pmh_library.py:722-762 | a field name the chain does not know never rejects a record |
| OaiSearch.EmptyFieldNeverDrops | oai_pmh_library.py:723-762 | a criterion on a field the record lacks never rejects it |
| OaiSearch.CriterionMeaning | oai_pmh_library.py:723-748 | title: case-insensitive containment; author: some author contains the term; year: exact equality |
| OaiSearch.SeparatorIgnored | oai_pmh_library.py:749-762 | for ISBN and ISSN, inserting a character other than a digit or `X` into the term changes nothing |
| SruClient.Lookup | sru_library.py:383-384 | `d.get(k)` finds a value exactly when the key is present |
| SruClient.DictSet | sru_library.py:215-216 | assigning a key keeps the order of the existing keys and appends a new key at the end |
| SruClient.DictSetKeys | sru_library.py:215-216 | after the assignment the keys are the old ones plus the assigned one |
| SruClient.DictSetLookup | sru_library.py:215-216 | after the assignment the key maps to the new value and every other key is unchanged |
| SruClient.DictUpdateKeeps | sru_library.py:219 | `params.update(query_params)` keeps the existing keys in place and adds the new ones |
| SruClient.DictUpdateLookup | sru_library.py:219 | after the update a key maps to its `query_params` value when it has one, else to its old value |
| SruClient.BaseParams | sru_library.py:203-216 | five fixed parameters, plus `recordSchema` exactly when a schema is given |
| SruClient.EncodedItems | sru_library.py:222 | one `k=quote(v)` item per parameter, in order |
| SruClient.SearchParamsKeys | sru_library.py:203-219 | the request starts with `version`, `operation`, `query`, `maximumRecords`, `startRecord`, and has `recordSchema` exactly when a schema applies or `query_params` sets one |
| SruClient.SearchParamsValues | sru_library.py:203-219 | every parameter's value is the `query_params` one when given, else the built-in one |
| SruClient.RawRecordOf | sru_library.py:319-343 | a record element gives a raw record exactly when it has `srw:recordData`, with a non-empty id and the serialised data |
| SruClient.RawRecords | sru_library.py:316-343 | at most one raw record per element |
| SruClient.RawRecordsKept | sru_library.py:316-343 | the raw records are exactly as many as the elements with data, and every id is non-empty |
| SruClient.RawRecordsNumbered | sru_library.py:339 | without identifiers or positions the ids are `record-1`, `record-2`, … in order |
| SruClient.RecordFromElement | sru_library.py:321-343 | one turn of the record loop computes the specified raw record |
| SruClient.ExtractRecords | sru_library.py:316-343 | the record loop computes the specified raw records |
| SruClient.AnySchemaUnknownPrefix | sru_library.py:262-282 | a diagnostic seen in a prefix of the list is seen in the list |
| SruClient.RetryOnUnknownSchema | sru_library.py:262-282 | the diagnostics loop re-requests with `recordSchema=dublincore` when a diagnostic reports an unknown schema and the URL asks for `marcxchange`, and otherwise keeps the response |
| SruClient.ExecuteQueryCount | sru_library.py:300-345 | no or unparsable or zero `numberOfRecords` gives `(0, [])`; otherwise the total is that number and one raw record per element with data |
| SruClient.ExecuteQuery | sru_library.py:229-355 | `execute_query` returns the specified total and raw records |
| SruClient.ExtractTextFirst | sru_library.py:609-616 | `_extract_text` returns `None` exactly when no path hits, else the stripped text of the first path that hits |
| SruClient.FindElementsFirst | sru_library.py:618-625 | `_find_elements` returns nothing exactly when no path matches, else the matches of the first path that matches |
| SruClient.ExtractTextLoop | sru_library.py:609-616 | the early-return loop computes the specified text |
| SruClient.FindElementsLoop | sru_library.py:618-625 | the early-return loop computes the specified elements |
| SruClient.BuildQueryUrl | sru_library.py:187-226 | the URL is the base URL, then `&` when the base already holds `?` and `?` otherwise, then the encoded parameters joined by `&`; it always holds a `?` |
| SruDispatch.GenericParse | sru_library.py:431-607 | `_generic_parse` always raises: it passes `publisher=`, which the record class does not accept |
| SruDispatch.MatchFrom | sru_library.py:417 | a match found from `start` on starts at or after `start` and is a match of `<dc:title[^>]*>(.*?)</dc:title>` at those positions |
| SruDispatch.NoMatchAt | sru_library.py:417 | a start without a later `>`, or without a closing tag after it, has no match |
| SruDispatch.MatchFromLeftmost | sru_library.py:417 | `re.search` finds the leftmost match: none when there is no match at all, otherwise no match starts earlier |
| SruDispatch.DcTitleShortest | sru_library.py:417 | the non-greedy group never contains a closing `</dc:title>` |
| SruDispatch.Converted | sru_library.py:380-427 | one raw record becomes the parser's record; `Unparseable Record <id>` when no record was produced; an error record with the regex title or `Error Record <id>` when parsing raised |
| SruDispatch.ConvertAll | sru_library.py:378-427 | exactly one record per raw record |
| SruDispatch.SruRegistry.constructor | sru_library.py:629-852 | the registry starts with the seven schema names registered by the decorators |
| SruDispatch.SruRegistry.Register | sru_library.py:90-96 | `register_parser` maps the schema to the parser and leaves the other schemas alone |
| SruDispatch.SruRegistry.Search | sru_library.py:357-429 | `search` over the registry's current parsers returns the specified total and records |
| SruDispatch.ConvertRecords | sru_library.py:378-427 | the conversion loop computes the specified records |
| SruDispatch.ConvertRecord | sru_library.py:380-427 | one turn of the loop, with its nested `try` blocks, computes the specified record |
| SruDispatch.ConvertAllEach | sru_library.py:378-427 | record i of the result is the conversion of raw record i |
| SruDispatch.SearchShape | sru_library.py:373-429 | `search` reports `execute_query`'s total and converts every raw record, in order |
| SruDispatch.CustomFirst | sru_library.py:382-396 | a custom parser is used whatever the schema; when it raises the generic parser runs (and raises too) |
| SruDispatch.BuiltinOutcome | sru_library.py:382-396 | with the built-in registry only `RDFxml` records can parse; every other schema ends in an exception |
| SruDispatch.BuiltinRaises | sru_library.py:632-850 | the built-in Dublin Core and MARCXML parsers always raise (`publisher=`) |
| SruDispatch.BuiltinKeepsIdentity | sru_library.py:378-427 | with the built-in registry every record keeps its raw record's id and XML |
| SruDispatch.ErrorTitleFallback | sru_library.py:411-420 | when parsing raised and the XML has no `dc:title`, the title is `Error Record <id>` |
| SruDispatch.RegisterEffect | sru_library.py:90-96 | after registering a parser its schema uses it, and every other schema behaves as before |
| SruDispatch.Outcome | sru_library.py:380-393 | a record raises exactly when no parser is chosen or the chosen parser raises; otherwise it is that parser's outcome |
| SruRdf.AddNewFacts | sru_library.py:922-924 | the guarded append adds exactly the value, keeps the earlier items in front, and adds no repeat |
| SruRdf.AddEachSnoc | sru_library.py:920-924 | appending one more candidate is one more guarded append |
| SruRdf.AddEachMembers | sru_library.py:920-924 | after the loop the items are exactly the earlier items and the candidates |
| SruRdf.AddEachNoRepeats | sru_library.py:920-924 | a list without repeats stays without repeats |
| SruRdf.AddEachPrefix | sru_library.py:920-924 | the earlier items stay at the front |
| SruRdf.AddEachConcat | sru_library.py:920-992 | two loops one after the other act as one loop over both candidate lists |
| SruRdf.Remember | sru_library.py:922-924 | the `seen` set and the list are updated together: the new list is the guarded append and the set still holds exactly its items |
| SruRdf.RememberEach | sru_library.py:920-924 | the same over a whole candidate list |
| SruRdf.SpaceRun | sru_library.py:919 | `\s*` consumes the longest run of white space |
| SruRdf.SeparatorEnd | sru_library.py:919 | a separator found at p ends after p; a comma or semicolon always starts one |
| SruRdf.PiecesFrom | sru_library.py:919 | `re.split` gives at least one piece |
| SruRdf.PiecesFromFree | sru_library.py:919 | no piece contains a comma or semicolon |
| SruRdf.StatementPiecesFree | sru_library.py:919 | no piece of the split statement contains a comma or semicolon |
| SruRdf.CleanedSnoc | sru_library.py:920-924 | cleaning one more piece appends its cleaned name if it is non-empty |
| SruRdf.CleanedNonEmpty | sru_library.py:921-922 | only non-empty cleaned names are offered |
| SruRdf.ScanStatement | sru_library.py:914-924 | the statement loop appends each cleaned, non-empty, unseen piece, keeping `seen` in step |
| SruRdf.StatementStep | sru_library.py:920-924 | one turn of the statement loop is one guarded append of the cleaned piece, or nothing when it is empty |
| SruRdf.NamesOfRaises | sru_library.py:931-992 | a creator or relator element is treated as raising exactly when the reference it turns into a path holds a double quote (an over-approximation of what ElementTree rejects) |
| SruRdf.ThenAssociative | sru_library.py:927-992 | running name computations one after another does not depend on grouping |
| SruRdf.OfferedConcat | sru_library.py:927-992 | the names offered by two element lists are those of the first, then those of the second |
| SruRdf.OfferedRaises | sru_library.py:927-992 | a list of elements raises exactly when one of them holds a bad reference |
| SruRdf.StageConcat | sru_library.py:927-992 | two loops over the same kind of element act as one loop over both lists |
| SruRdf.AuthorsInStages | sru_library.py:914-992 | the author list is built statement first, then `dcterms:creator`, `dc:creator`, `aut`, `cre`, `edt` in that order |
| SruRdf.FirstNestedName | sru_library.py:945-952 | the nested-node loop stops at the first node naming `preferredName` with text |
| SruRdf.NestedDescriptionNames | sru_library.py:974-980 | the nested-description loop offers each description's preferred name in order |
| SruRdf.ElementNames | sru_library.py:931-992 | one creator or relator element offers the specified names, or raises |
| SruRdf.OfferedPrefixRaises | sru_library.py:927-992 | once an element raises, the rest of the loop does not run |
| SruRdf.Gather | sru_library.py:927-992 | the element loop performs the specified stage and keeps `seen` in step |
| SruRdf.TermSubjectsValid | sru_library.py:1092-1109 | the `dcterms:subject` loop keeps subjects non-empty and without repeats |
| SruRdf.SubjectsValid | sru_library.py:1089-1118 | the subjects are non-empty and without repeats |
| SruRdf.ScanTermSubjects | sru_library.py:1092-1109 | the `dcterms:subject` loop computes the specified subjects |
| SruRdf.ScanNonBlank | sru_library.py:1112-1118 | the `dc:subject` loop appends each non-blank unseen text |
| SruRdf.LinksMembers | sru_library.py:1151-1162 | a link is offered exactly when some element's resource is that link and starts with `http` |
| SruRdf.LinksHttp | sru_library.py:1153 | every offered link starts with `http` |
| SruRdf.UrlsValid | sru_library.py:1147-1162 | the URLs are without repeats, are exactly the offered `primaryTopic` and `isLike` links, and all start with `http` |
| SruRdf.ScanLinks | sru_library.py:1151-1162 | the link loops compute the specified URLs |
| SruRdf.TitleRule | sru_library.py:890-901 | the title is the base title, extended by `: ` and the alternative title exactly when there is one and the base has no colon |
| SruRdf.YearOf | sru_library.py:995-1001 | a year has four characters and starts with a digit |
| SruRdf.FromStatement | sru_library.py:1019-1034 | the publication statement never replaces a place or publisher already found |
| SruRdf.StatementFills | sru_library.py:1019-1034 | a value taken from the statement fills a missing field: the place is the part before the first ` : `, the publisher the rest without a trailing `[yyyy]` |
| SruRdf.SegmentsHaveNoSlash | sru_library.py:1059-1130 | a language, format or series taken from a resource URI is a single path segment |
| SruRdf.FirstBiboText | sru_library.py:1068-1073 | an ISBN is found exactly when one of the four fields has text |
| SruRdf.FindIsbn | sru_library.py:1068-1073 | the early-exit loop computes the specified ISBN |
| SruRdf.TagText | sru_library.py:1138-1142 | a value found for a tag is the stripped text of that tag in one of the namespaces |
| SruRdf.AbstractFromSource | sru_library.py:1136-1144 | the abstract is either where the loop started or the stripped text of one of the elements it visits |
| SruRdf.FindTagText | sru_library.py:1138-1142 | the inner loop computes the specified text |
| SruRdf.FindAbstract | sru_library.py:1136-1144 | the nested loop computes the specified abstract |
| SruRdf.RdfXmlOutcome | sru_library.py:853-1192 | `parse_rdfxml`: no description gives `None`; it is treated as raising exactly when a creator or relator reference holds a double quote (an over-approximation); a record keeps the raw id and XML |
| SruRdf.AuthorsRaise | sru_library.py:927-992 | the author loops are treated as raising exactly when some creator or relator holds a reference with a double quote (an over-approximation) |
| SruRdf.AuthorsValid | sru_library.py:904-992 | the authors are without repeats and are exactly the statement, creator and relator names |
| SruRdf.StatementAuthorsFirst | sru_library.py:914-924 | the statement names come first, in order, none empty |
| SruRdf.RecordListsValid | sru_library.py:1174-1192 | a parsed record's authors, subjects and URLs have no repeats, its subjects are non-empty and its URLs start with `http` |
| SruRdf.ReadPublication | sru_library.py:1004-1034 | the place and publisher code computes the specified pair |
| SruRdf.ReadTitle | sru_library.py:890-901 | the title code computes the specified title |
| SruRdf.ReadAuthors | sru_library.py:904-992 | the author loops compute the specified authors or raise |
| SruRdf.ReadSubjects | sru_library.py:1089-1118 | the subject loops compute the specified subjects |
| SruRdf.ReadUrls | sru_library.py:1147-1162 | the URL loops compute the specified URLs |
| SruRdf.ParseRdfXml | sru_library.py:853-1192 | the method returns the specified outcome |
| SruRdf.RdfXml | sru_library.py:853-1192 | no record exactly when there is no description; a parsed record keeps the raw id and XML |
| IxTheoRis.RisEntry | ixtheo_library.py:648-662 | a line gives a tag and value exactly when its stripped text holds ` - `; they are the stripped parts before and after the first occurrence |
| IxTheoRis.RisEntryOfLine | ixtheo_library.py:657-662 | a well-formed `TAG - value` line reads back as that tag and value |
| IxTheoRis.EntryTypeFor | ixtheo_library.py:665-680 | a `TY` value sets the entry type exactly when it is `JOUR`, `BOOK`, `CHAP`, `CONF` or `THES` |
| IxTheoRis.Classify | ixtheo_library.py:665-745 | `SN` is an ISSN exactly when it has the `dddd-ddd[dX]` pattern, else an ISBN; `AU` adds an author; `TY` and `PY`/`Y1` store the mapped type and the found year; every other field stores the value |
| IxTheoRis.GetApply | ixtheo_library.py:665-745 | setting one field changes that field only |
| IxTheoRis.BibFoldLast | ixtheo_library.py:647-745 | every single-valued field holds the value of the last line that sets it, or its initial value |
| IxTheoRis.BibFoldAuthors | ixtheo_library.py:688-689 | the authors are every `AU` value, in order |
| IxTheoRis.CutAbstract | ixtheo_library.py:845-846 | the abstract is at most 1000 characters; a longer one becomes its first 997 and `...` |
| IxTheoRis.FieldLines | ixtheo_library.py:779-848 | one `  name = {value},` line per field, in order |
| IxTheoRis.RisToBibtex | ixtheo_library.py:619-621 | no BibTeX exactly for empty input |
| IxTheoRis.ReadRisLines | ixtheo_library.py:647-745 | the line loop computes the specified fields |
| IxTheoRis.ConvertRisToBibtex | ixtheo_library.py:606-859 | `_convert_ris_to_bibtex` returns the specified entry |
| IxTheoRis.BibtexShape | ixtheo_library.py:779-856 | the entry is the `@type{key,` header, the field lines, the `note = {ID: …}` line and `}`, joined by newlines |
| IxTheoRis.CitationKeyRule | ixtheo_library.py:762-775 | `ixtheo_<id>` without an author and a year; else, for a first author with a comma, the lowercased stripped text before its first comma; without a comma, the lowercased last word; either followed by the year; `ixtheo` when the author has neither comma nor word |
| IxTheoRis.JournalPlacement | ixtheo_library.py:782-848 | the journal is written as `journal` for an article and as `series` otherwise; title, author and year come before it, the other fields after it |
| IxTheoRis.TitleFirst | ixtheo_library.py:757-785 | the first field is the last non-empty `TI`/`T1` title, or `Unknown Title`, with `&` and `%` escaped |
| IxTheoRis.PagesRule | ixtheo_library.py:749-753 | pages are `SP--EP` when both are set, `SP` when only the start is |
| IxTheoRis.EntryTypeRule | ixtheo_library.py:628-680 | the entry type is set by the last recognised `TY` line, else `misc` |
| IxTheoRis.AuthorKey | ixtheo_library.py:766-773 | with a comma or a word in the first author the key ends with the year; with neither it stays `ixtheo` |
| IxTheoRis.CitationKey | ixtheo_library.py:762-775 | `ixtheo_<id>` exactly when an author or the year is missing; otherwise `ixtheo` or a key ending with the year |
| IxTheoRis.Pages | ixtheo_library.py:749-753 | pages exist exactly when a start page is set; they start with it and are `SP--EP` when an end page is set too |
| IxTheoSearch.FilterParams | ixtheo_library.py:147-156 | one `filter[]` value per set filter, in the order format, language, topic, each with its prefix |
| IxTheoSearch.RequestFor | ixtheo_library.py:138-165 | the request carries query, type, limit, sort and an empty `botprotect`; `filter[]` only when some filter is set, `page` exactly when the page is above 1, `csrf` exactly when a token is known |
| IxTheoSearch.CleanAuthorsSpec | ixtheo_library.py:189-193 | the kept authors are exactly the non-blank authors, stripped |
| IxTheoSearch.CleanAuthorsLoop | ixtheo_library.py:189-193 | the author loop computes the cleaned author list |
| IxTheoSearch.HitRecord | ixtheo_library.py:185-206 | a scraped hit becomes a record with its id, year, subjects and text, its title or `Unknown Title`, and its formats joined by `, ` |
| IxTheoSearch.HitRecords | ixtheo_library.py:185-208 | one record per hit |
| IxTheoSearch.HitRecordsEach | ixtheo_library.py:185-208 | record `i` is the conversion of hit `i` |
| IxTheoSearch.BuildRecords | ixtheo_library.py:183-208 | the hit loop computes the specified record list |
| IxTheoSearch.Search | ixtheo_library.py:115-214 | `search` returns `(0, [])` on a failed request or an unsuccessful parse, else the total and the converted hits |
| IxTheoSearch.FloorDiv | ixtheo_library.py:252-254 | Python's `//`: the quotient rounded toward minus infinity, for either sign of divisor |
| IxTheoSearch.MaxPages | ixtheo_library.py:250-254 | for a positive page size and a positive number of wanted results, the page count is the least number of pages holding them, the total capped at `max_results` |
| IxTheoSearch.RestPages | ixtheo_library.py:256-274 | the page loop appends whole pages from page 2 up to where it stops, all non-empty, no further than the page count |
| IxTheoSearch.AllPagesEmpty | ixtheo_library.py:244-245 | an empty first page gives `(0, [])` |
| IxTheoSearch.AllPagesShape | ixtheo_library.py:238-280 | otherwise the total of the first page and a prefix of the collected pages, at most `max_results` long, and all of them when there is no cap |
| IxTheoSearch.StopUnbounded | ixtheo_library.py:257-272 | without a cap the loop stops only past the page count or at an empty page |
| IxTheoSearch.SearchAllPages | ixtheo_library.py:217-280 | `search_all_pages` computes the specified result, raising for a page size of zero once the first page has records |
| IxTheoSearch.SearchTypeFor | ixtheo_library.py:896-908 | a set title wins over an author, an author over a subject, and otherwise the query is searched in all fields |
| IxTheoSearch.HandlerSearch | ixtheo_library.py:879-917 | the handler searches all pages with the chosen type and query, the default page size and sort, and the format and language filters |
| IxTheoSearch.SearchOf | ixtheo_library.py:115-214 | a failed request or an unsuccessful parse gives `(0, [])`; otherwise the parsed total and one record per hit |
| IxTheoSearch.AllPagesOf | ixtheo_library.py:217-280 | raises exactly when the first page has records and the page size is zero; an empty first page gives `(0, [])` |
| IxTheoExport.SplitLines | ixtheo_library.py:971 | the export text is cut at every line break into one more piece than there are breaks; no piece holds a line break, and joining the pieces with the breaks between them gives the text back |
| IxTheoExport.SecondaryTitle | ixtheo_library.py:1010-1033 | a `T2` value is the journal of a `JOUR` record; for any other record type it sets the series title and leaves the journal alone |
| IxTheoExport.ReadExport | ixtheo_library.py:971-1050 | the line loop computes the fields of the specified fold over the lines |
| IxTheoExport.ExportLineOf | ixtheo_library.py:972-980 | a well-formed `TAG  - value` line applies the step for that tag to that value |
| IxTheoExport.StepType | ixtheo_library.py:982-984 | a `TY` line sets the record type |
| IxTheoExport.StepSecondary | ixtheo_library.py:1010-1033 | a `T2` line applies the secondary-title rule |
| IxTheoExport.SecondaryTitleOrder | ixtheo_library.py:982-1033 | after `TY` and then `T2`, the journal is set exactly for `JOUR`; for other types a series title is set and the journal is unchanged |
| IxTheoExport.FormatFor | ixtheo_library.py:1064-1071 | `JOUR`, `BOOK` and `CHAP` map to `Journal Article`, `Book` and `Book Chapter`; there is no format for any other type |
| IxTheoExport.RecordWithExportFallbacks | ixtheo_library.py:930-1138 | a record without id comes back unchanged, and so does one with neither export nor detail; with a detail record and no export the detail record comes back, keeping its raw data if it has any and taking the original's otherwise |
| IxTheoExport.RisBranchRaises | ixtheo_library.py:1074-1086 | any record with an id and a non-empty export raises, because the record type has no `journal_title` field |
| IxTheoExport.GetRecordWithExport | ixtheo_library.py:919-1138 | `get_record_with_export`, as written, computes the specified outcome |
| IxTheoExport.Enhanced | ixtheo_library.py:1074-1104 | the enhanced record keeps the id and has no editors |
| IxTheoExport.EnhancedRules | ixtheo_library.py:1074-1096 | the title is the exported title, else the detail title, and never empty; exported authors win; the series is the exported series title; the raw data is the export text unless a series editor was found |
| IxTheoExport.EnhancedFormat | ixtheo_library.py:1052-1104 | the format follows the record type and the extent is `Pages s-e`, `Pages s` or absent, matching the page fields |
| IxTheoExport.FixedAgreesElsewhere | ixtheo_library.py:919-1138 | the corrected method agrees with the original on every input where the original returns |
| IxTheoExport.PublicationRule | ixtheo_library.py:524-537 | without a `:` nothing is read; with one there is a publisher; when a date is read, the text after the colon is `a,c` or `a,m,c` with comma-free `a` and `c`, and publisher, date and place are `a`, `c` and `m`, stripped |
| IxTheoExport.StripNoComma | ixtheo_library.py:530-533 | stripping a comma-free piece keeps it comma-free |
| IxTheoExport.StripInside | ixtheo_library.py:528-533 | a stripped text is a contiguous slice of the original |
| IxTheoExport.PiecesThree | ixtheo_library.py:530-535 | three or more comma pieces join as the first, a comma, the joined middle pieces, a comma and the last |
| IxTheoExport.RejoinCons | ixtheo_library.py:971 | a character put in front of the first piece comes out in front of the rejoined text |
| IxTheoExport.PublicationOf | ixtheo_library.py:524-537 | a publisher is read exactly when the string holds a `:`, a date exactly when the text after the colon also holds a comma, and a place only with a date |
| IxTheoExport.PublisherPieces | ixtheo_library.py:529-537 | the text after the colon always gives a publisher, a date exactly when it holds a comma, and a place only with a date |
| IxTheoExport.PublicationOnePiece | ixtheo_library.py:527-537 | without a comma after the colon, that stripped text is the publisher and there is no date or place |
| IxTheoExport.PublicationTwoPieces | ixtheo_library.py:527-533 | `publisher, date`: the stripped pieces before and after the one comma are publisher and date, with no place |
| IxTheoExport.PublicationThreePieces | ixtheo_library.py:527-535 | `publisher, place, date`: the pieces before the first comma and after the last are publisher and date, and all between, stripped, is the place |
| IxTheoExport.ExportStep | ixtheo_library.py:982-1050 | a line whose tag is none of the handled RIS tags leaves the fields alone; `AU` appends its value to the authors and no other tag touches them |
| IxTheoExport.RecordWithExport | ixtheo_library.py:919-1138 | `get_record_with_export` as written raises exactly when the record has an id and the export is non-empty; without a detail record it returns the record it was given |
| IxTheoExport.RecordWithExportFixed | ixtheo_library.py:919-1138 | the corrected method returns a record without id unchanged, and with an id and an export an enhanced record with the same id, a non-empty title and no editors |
| SruQuery.EqualsTemplateRule | library_search.py:209-217 | an example holding `=` gives the text before its first `=`, then `=` and the value, quoted exactly when the text after the first `=` starts with a quote; an example without `=` gives nothing |
| SruQuery.FirstPieceEmptyStart | library_search.py:211-212 | the first `=`-piece of a non-empty text is empty only when the text starts with `=` |
| SruQuery.MatchingIndex | library_search.py:336-340 | the key loop stops at the first example key that contains the lower-cased query key or is contained in it, or after the last key; no key before it matches |
| SruQuery.MatchingKey | library_search.py:336-340 | the result is the first example key that contains the lower-cased query key or is contained in it; none exactly when no key matches |
| SruQuery.MappedParts | library_search.py:333-346 | one `key=value` part per query pair |
| SruQuery.DefaultParts | library_search.py:351-356 | one part per query pair in the endpoint's default form |
| SruQuery.CriterionOrder | library_search.py:186-366 | the first criterion given, in the order isbn, issn, title, author, year, advanced, decides the query, and none gives the empty query; `--schema` changes exactly for `bnf` without a schema, to `dublincore` |
| SruQuery.DefaultForms | library_search.py:219-225 | without examples an ISBN query is `ISBN=v` for `dnb`, `bib.isbn any "v"` for `bnf`, `isbn=v` otherwise; a title query is `TIT=v`, `bib.title any "v"` or `title="v"` |
| SruQuery.IsbnFromExample | library_search.py:206-217 | an ISBN example holding `=` is followed, quoting the value exactly when the example quotes it |
| SruQuery.TitleFromExample | library_search.py:248-277 | a title example with ` all ` and no `=` gives its prefix, ` all ` and the quoted value; one with neither `=`, ` all ` nor ` any ` falls back to the endpoint default |
| SruQuery.AdvancedMapped | library_search.py:325-348 | an object query against an example object joins one part per pair with ` AND `; part `i` uses the first matching non-empty example key, else the query key |
| SruQuery.BuildSruQuery | library_search.py:186-366 | the schema is changed only for `bnf`, to `dublincore`; with no criterion the query is empty |
| Citation.BibtexEscape | library_search.py:369-394 | `bibtex_escape` returns the empty text for empty input and otherwise the text after the replacement loop, as written |
| Citation.ApplyReplacements | library_search.py:390-391 | the replacement loop returns the text after all twelve `str.replace` steps, applied in table order |
| Citation.StepsKeepPlain | library_search.py:390-391 | text without any of the twelve special characters passes every replacement step unchanged |
| Citation.AmpersandEscapedTwice | library_search.py:375-391 | as written, `&` comes out as `\textbackslash{}&`, because the backslash step re-escapes the backslash of `\&`; escaping each character once gives `\&` |
| Citation.EscapeBibtex | library_search.py:375-388 | escaping never shortens the text |
| Citation.NamedAt | library_search.py:383-387 | a recognised named escape is a prefix of the text and longer than one character |
| Citation.NamedAtEscape | library_search.py:383-387 | the named escapes of `~ ^ \ < >` are recognised at the head of any text |
| Citation.UnescapeChar | library_search.py:375-388 | the escape of any character, followed by any text, reads back as that character |
| Citation.EscapeRoundTrip | library_search.py:369-394 | escaping is undone exactly: unescaping an escaped text gives the text back |
| Citation.EscapeConcat | library_search.py:375-391 | escaping distributes over concatenation, one character at a time |
| Citation.PlainUnchanged | library_search.py:369-394 | text without special characters is left unchanged, by the escaping as written and by the corrected one |
| Citation.PlainEscape | library_search.py:375-391 | the corrected escaping leaves plain text unchanged |
| Citation.KeepWordsAndSpace | library_search.py:407 | removing `[^\w\s]` keeps only word characters and white space |
| Citation.UnderscoreRuns | library_search.py:410 | replacing white-space runs by `_` leaves no white space, and every character is `_` or comes from the input |
| Citation.SkipSpace | library_search.py:410 | a white-space run is skipped as a whole: the rest is a suffix that does not start with white space |
| Citation.CleanKey | library_search.py:397-412 | empty text gives `unknown`; otherwise at most 30 lower-case word characters, and a prefix of the folded text filtered to word characters and white space, lowercased, each white-space run replaced by `_`; the whole of it when it fits in 30 |
| Citation.LowerKeepsClass | library_search.py:407 | lower-casing keeps word characters and white space in their class |
| Citation.CleanKeyIdempotent | library_search.py:397-412 | a key that is already clean comes back unchanged |
| Citation.KeepAll | library_search.py:407 | text of word characters only survives the character filter |
| Citation.LowerIdentity | library_search.py:407 | text without upper-case letters is its own lower-case form |
| Citation.NoRuns | library_search.py:410 | text of word characters only is unchanged by the white-space replacement |
| Citation.BibtexEscapeAsWritten | library_search.py:369-394 | empty text gives the empty text, and text without any of the twelve special characters comes back unchanged |
| Citation.KeepWordsAndSpaceConcat | library_search.py:407 | the filter works character by character: it distributes over concatenation |
| Citation.KeepWordsAndSpaceOne | library_search.py:407 | one character is kept exactly when it is a word character or white space |
| Citation.SkipSpaceOver | library_search.py:410 | skipping white space consumes exactly a run of it and stops at the next other character |
| Citation.UnderscoreRunsStep | library_search.py:410 | a word followed by a white-space run keeps the word and turns the run into one `_` |
| Citation.UnderscoreRunsWord | library_search.py:410 | text without white space passes unchanged in front of the rest |
| Citation.UnderscoreRunsCons | library_search.py:410 | a character that is not white space is kept in front |
| Citation.UnderscoreRunsRun | library_search.py:410 | a whole white-space run becomes a single `_` |
| RecordFormat.LastFirstIdempotent | library_search.py:458-470 | rewriting a name as `last, first` twice gives the same as once |
| RecordFormat.ZoteroNameRule | library_search.py:592-615 | a name with a comma splits there into stripped last and first names; a comma-free name of several words splits as the RIS rewrite does; a single word is the last name alone |
| RecordFormat.RisType | library_search.py:440-446 | the RIS type is `JOUR` exactly with an ISSN, `CHAP` exactly with a series and no ISSN, `BOOK` exactly with neither |
| RecordFormat.ExtendsTrans | library_search.py:449-541 | lines once appended stay in place as more are appended |
| RecordFormat.AddOpt | library_search.py:488-539 | an optional field adds one tagged line when set and nothing otherwise, keeping the lines before it |
| RecordFormat.AddNames | library_search.py:458-485 | one line per name, after the lines before |
| RecordFormat.AddNamesIndex | library_search.py:458-485 | name line `i` is the tag and name `i` rewritten as `last, first` |
| RecordFormat.AddItems | library_search.py:521-531 | one line per URL or subject, after the lines before |
| RecordFormat.AddItemsIndex | library_search.py:521-531 | item line `i` is the tag and item `i` |
| RecordFormat.AddYear | library_search.py:488-490 | a year adds two lines, `PY` and `Y1` |
| RecordFormat.AddMiddle | library_search.py:487-519 | year, publisher, place, ISBN, ISSN, edition, series and language add one line each when set, two for the year |
| RecordFormat.AddTail | library_search.py:520-541 | the URL, abstract, keyword, format and extent lines, then the closing `ER  - ` line |
| RecordFormat.ExtendsIndex | library_search.py:449-541 | a line kept by later appends keeps its index |
| RecordFormat.NamesInside | library_search.py:458-485 | the name lines survive every later append at their place |
| RecordFormat.RisAuthors | library_search.py:458-470 | the author lines follow the three head lines, in order, each as `last, first` |
| RecordFormat.RisEditors | library_search.py:472-485 | the editor lines follow the author lines, in order, each as `last, first` |
| RecordFormat.RisShape | library_search.py:430-543 | the RIS entry is the type, id and title lines, the author and editor lines, one line per set field and per URL and subject, and `ER  - ` at the end |
| RecordFormat.RisStandardNumbers | library_search.py:500-506 | a record with both an ISBN and an ISSN gets two `SN` lines, ISBN first |
| RecordFormat.AppendOpt | library_search.py:492-539 | one optional-field append computes the specified lines |
| RecordFormat.AppendNames | library_search.py:458-485 | the name loop computes the specified lines |
| RecordFormat.AppendItems | library_search.py:521-531 | the URL and keyword loops compute the specified lines |
| RecordFormat.AppendMiddle | library_search.py:487-519 | the field appends compute the specified lines |
| RecordFormat.AppendTail | library_search.py:520-541 | the closing appends compute the specified lines |
| RecordFormat.FormatRis | library_search.py:430-543 | `format_record_ris`, given the editors, returns the specified lines joined by newlines |
| RecordFormat.RisOf | library_search.py:430-543 | the corrected RIS text agrees with the code as written whenever the record has an editor list |
| RecordFormat.RisRaisesForClientRecords | library_search.py:472-473 | a record built as every client builds it, with no `editors` attribute, makes the RIS format raise; the corrected one gives a `BOOK` entry |
| RecordFormat.Creators | library_search.py:591-641 | one creator per name, in order, with the given role and the split name |
| RecordFormat.ZoteroCreators | library_search.py:591-641 | the creator loops build the authors, then the editors |
| RecordFormat.ZoteroShape | library_search.py:572-641 | the item is a journal article exactly with an ISSN; authors come before editors, each with its role and last name; the URL is the first URL or empty |
| RecordFormat.ZoteroOf | library_search.py:570-643 | the corrected item agrees with the code as written whenever the record has an editor list, and has only the authors otherwise |
| RecordFormat.ZoteroRaisesForClientRecords | library_search.py:617-618 | without an editor list the Zotero format raises as written; the corrected one lists the authors |
| RecordFormat.Truncate | library_search.py:702-716 | a text within the limit is kept; a longer one becomes its first `limit - 3` characters and `...` |
| RecordFormat.SubjectsText | library_search.py:685-691 | up to five subjects are joined by `, `; beyond five the first five are followed by `, ... (n more)` |
| RecordFormat.AddUrls | library_search.py:693-700 | no URL adds nothing; one adds a `URL:` line; several add a `URLs:` line and one line each |
| RecordFormat.AddFields | library_search.py:657-683 | the labelled field lines come after the lines before |
| RecordFormat.AddHead | library_search.py:646-691 | the text begins with the title line |
| RecordFormat.TextBounds | library_search.py:646-718 | the text starts with the title line; the abstract is shown cut to 300 characters; with raw data requested it ends with `\nRaw Data:` and the raw data cut to 2000 |
| RecordFormat.FormatText | library_search.py:646-718 | the text branch, given the editors, returns the specified lines joined by newlines |
| RecordFormat.AppendFields | library_search.py:657-683 | the field appends compute the specified lines |
| RecordFormat.TextOf | library_search.py:646-718 | the corrected text agrees with the code as written whenever the record has an editor list, and begins with the title line |
| RecordFormat.TextRaisesForClientRecords | library_search.py:653-655 | a record type without an `editors` attribute makes the text branch raise as written; the corrected text is the one without an editor line |
| RecordFormat.MoreResults | library_search.py:899-904 | the hint names a positive number of remaining records and the next start record, which together reach the total; with a start record of at least 1 it is shown exactly when the total exceeds the records up to the last one shown |
| RecordFormat.LastFirst | library_search.py:458-470 | a name with a comma or of at most one word is kept; otherwise the result starts with the last word and `, ` |
| RecordFormat.ZoteroName | library_search.py:592-615 | for a comma-free name the first name is empty exactly when there is at most one word; the last name is the last word, or the name as given when it has at most one word |
| RecordFormat.RisAsWritten | library_search.py:430-543 | as written, the RIS format raises exactly when the record has no editor list, and otherwise starts with the `TY` line of the record type |
| RecordFormat.ZoteroItemOf | library_search.py:570-643 | the item is a journal article exactly with an ISSN, keeps the title, and has one creator per author and per editor |
| RecordFormat.ZoteroAsWritten | library_search.py:570-643 | as written, the Zotero format raises exactly when the record has no editor list, and otherwise has one creator per author and per editor |
| RecordFormat.TextAsWritten | library_search.py:646-718 | as written, the text format raises exactly when the record has no editor list, and otherwise starts with the title line |

## Left out

- Network I/O is not modelled. This covers HTTP requests, status codes, the IxTheo session with its cookies, headers and CSRF token scraping, and the `time.sleep` pacing. Each server is a function parameter and the CSRF token is an input.
- The Sickle branches of the OAI-PMH client are not modelled, because Sickle is a foreign library. Only the branches that parse the XML themselves are modelled.
- XML parsing is not modelled: the parsers receive an already-parsed tree. Serialisation (`ET.tostring`) is the function parameter `toXml`, so raw XML text is opaque.
- `urllib.parse.quote` is the function parameter `quote`.
- The BeautifulSoup scraping of IxTheo result and detail pages is not modelled. A scraped hit is an input; of the detail page only the publisher string split is modelled.
- Character handling is simplified:
  - `clean_key`'s Unicode NFKD normalisation and combining-mark removal are the function parameter `fold`;
  - `\d` and `\w` are restricted to ASCII;
  - `lower()` changes ASCII letters only.
- General regular expressions are not modelled. Only the patterns the code uses have scanners.
- The lazy editor pattern in `get_record_with_export` is the function parameter `editorOf` (`IxTheoExport.EditorSearch`).
- The text of the dictionary stored as raw data when a series editor is found is the function parameter `rawWithEditor`.
- JSON is not modelled:
  - the JSON text of the Zotero item is not modelled, only its fields;
  - the `json` and `bibtex` branches of `format_record` and its dispatch on the format name are not modelled;
  - values of an `--advanced` JSON object are strings; numbers and other JSON values are not modelled.
- Logging, debug printing, the command-line layer, the endpoint tables, file output and the Zotero database or API are not modelled. `build_sru_query` takes the chosen endpoint's examples as a parameter.
- The SRU client's Dublin Core, MARCXML and generic parsers raise on every input, as written (`publisher=` keyword). The fields they read before that call are not modelled. There is no corrected version of these parsers.
- `SruRdf`: `parse_rdfxml` collects an `identifiers` list it never uses; that list is not modelled.
- `SruRdf`: extra namespaces passed to a parser are not merged into the fixed namespace map.
- `SruRdf`: the model treats every path built from an attribute value holding a double quote as raising. Some such values (for example `x"][1`) may in fact give a valid path, so the raising cases are an over-approximation. Other text that ElementTree's path tokenizer might reject is not examined.
- The `namespaces` argument of the `OAIClient` constructor (oai_pmh_library.py:169-170) is not modelled; the parsers use the fixed namespace map.
- `Text.ParseInt`: accepts ASCII digits only; Python `int()` also accepts other Unicode decimal digits.
- `Text.Words`: its own contract states only that every piece is a word. `Text.WordsOfWord`, `Text.WordsAtSpace` and `Text.WordsJoin` state that the pieces are the maximal runs without white space, in order.
- `Text.KeepDigitsX`: its own contract does not state that the kept characters stay in order. `Text.KeepDigitsXOne` and `Text.KeepDigitsXConcat` state that.
- `Citation.KeepWordsAndSpace` and `Citation.UnderscoreRuns`: their own contracts state the character classes of the result only. `Citation.KeepWordsAndSpaceOne`, `Citation.KeepWordsAndSpaceConcat`, `Citation.UnderscoreRunsStep` and `Citation.UnderscoreRunsRun` state what they compute.
- `IxTheoExport.GetRecordWithExport`: the source writes the back-filled `raw_data` into the detail record in place. The model returns an updated copy, so aliasing of that object is not captured.
- `IxTheoExport.SplitLines`: unlike `str.splitlines`, it yields an empty piece between `\r` and `\n` and after a final line break. Both loops that use it skip empty lines, so they read the same lines.
- `IxTheoExport.Enhanced`: its own contract states only the id and the absent editors. `EnhancedRules` and `EnhancedFormat` state the title, authors, series, raw data, format and extent. The fallbacks for year, publisher, place, ISBN and ISSN, and the subjects and abstract taken from the detail record, are stated by no contract.
- `Text.FindYear`, `Text.FindYear20th` and `Text.FindFourDigits` state that a match exists and what it looks like. They do not state that it is the leftmost match, which is what `re.search` returns.
- `Text.CleanAuthorName` and `Text.DropBracketYear` state only that the text does not grow.
- `Citation.EscapeBibtex` states only that escaping does not shorten the text. `Citation.EscapeRoundTrip` and `Citation.EscapeConcat` state its meaning.
- `SruQuery.DefaultParts` states only one part per pair. The per-endpoint forms of the parts are not stated by a contract.
- `RecordFormat.AddFields` and `RecordFormat.AddHead` state only that earlier lines are kept. The content of the text lines is stated only through `RecordFormat.TextBounds`.
- `Xml.LastNonBlank` states only that the value is non-empty. `Xml.OverwriteNonBlank` ties the loop to it.

## Findings

| source | as written | input that shows it | evidently intended | confidence | as-written member | corrected member |
|---|---|---|---|---|---|---|
| library_search.py:375-391 | the `\` step runs after the steps that insert backslashes and escapes those too | `bibtex_escape("&")` gives `\textbackslash{}&` | each special character escaped once, so `&` gives `\&` | not executed | Citation.BibtexEscapeAsWritten, Citation.AmpersandEscapedTwice | Citation.EscapeBibtex, Citation.EscapeRoundTrip |
| ixtheo_library.py:1085-1087 | the RIS branch passes `journal_title`, `volume` and `issue`, which the record class does not declare, so it raises `TypeError` | a record with id `1` and the export `TY  - JOUR` | the enhanced record built from the export and the detail record | not executed | IxTheoExport.RecordWithExport, IxTheoExport.RisBranchRaises | IxTheoExport.RecordWithExportFixed, IxTheoExport.EnhancedRules |
| library_search.py:473 | `format_record_ris` reads `record.editors`, which neither record class declares, so it raises `AttributeError` | `BiblioRecord(id="1", title="A title", raw_data="")` | no editor lines when the record has no editors | not executed | RecordFormat.RisAsWritten, RecordFormat.RisRaisesForClientRecords | RecordFormat.RisOf, RecordFormat.RisShape |
| library_search.py:618 | the Zotero branch reads `record.editors` and raises `AttributeError` in the same way | any record a client returns | no editor creators | not executed | RecordFormat.ZoteroAsWritten, RecordFormat.ZoteroRaisesForClientRecords | RecordFormat.ZoteroOf, RecordFormat.ZoteroShape |
| library_search.py:653 | the text branch reads `record.editors` and raises `AttributeError` in the same way | any record a client returns | no `Editor(s):` line | not executed | RecordFormat.TextAsWritten, RecordFormat.TextRaisesForClientRecords | RecordFormat.TextOf, RecordFormat.TextBounds |
