# Dead simple Markov sentences, modelled in Dafny

The program learns Markov chains of words and speaks sentences from them.
Text is cut into whitespace-separated tokens. Every run of n consecutive
tokens (a window), or every sentence, is merged into a trie of `Word`
nodes. A node holds:

- its text;
- a weight: how many merged runs passed through it;
- a list of tag strings;
- its children, keyed by their text.

The root map is kept on disk in a line-based text format. Sentences are
generated from the heaviest nodes. The process seeds a sentence at a
capitalised root, then extends it while the last word does not end a
sentence. Each extension looks up the word N - 1 places from the end among
the roots, and asks that root's child named by the last word for one of its
ten heaviest children.

Around this core the program also has:

- a cleaner for Project Gutenberg e-books;
- an IRC client whose channel messages become tagged training words.

The model is organised as follows:

| file | module | what it holds |
|---|---|---|
| `wrappers.dfy` | `Wrappers` | `Option` |
| `text.dfy` | `Text` | C-locale character classes, the stream tokenizer, decimal numbers, `std::map` key order, substring search |
| `word.dfy` | `Words` | the trie node as a value, `addWordInChain`, `getWord`, `topWord` (with an in-place sort), `outputTopSentence` |
| `word_format.dfy` | `WordFormat` | `operator<<`/`operator>>` of a node, with the stream's sticky fail flag, and the round trip |
| `store.dfy` | `Store` | the root-map file format shared by every saver and loader |
| `files.dfy` | `Files` | a file system as a class over a name-to-content map, with a history of states |
| `chain.dfy` | `Chain` | windows, learning a list of windows, and the path-weight theorem |
| `reader.dfy` | `Learner` | `struct Reader` |
| `stdin.dfy` | `StdinLearner` | `readSTDIN` of readstdin.hpp |
| `database.dfy` | `Database` | `struct Database`, its backup protocol and a corrected one |
| `loadandsave.dfy` | `LoadAndSave` | `loadFile`/`save` of loadandsave.hpp |
| `generation.dfy` | `Generation` | the snapshot, the seeds, the extension loop and the sentence loop |
| `voice.dfy` | `VoiceModel` | `struct Voice` |
| `speak.dfy` | `Speaker` | the free `speak` of speak.hpp |
| `main_program.dfy` | `MainProgram` | main.cpp's comparators, its header-less store and its sentence-chunking `readSTDIN` |
| `gutenberg.dfy` | `Gutenberg` | `struct GutenbergParser` |
| `irc.dfy` | `IrcClient` | `class Irc`, without its sockets |

Several pieces of source appear more than once, and are modelled once:

- main.cpp repeats `struct Word` (main.cpp:60-146). Its `addWordInChain` and
  its `operator<<`/`operator>>` match word.hpp's line for line.
- reader.hpp and readstdin.hpp repeat `isEndOfSentence` on a node's text.

The generator's randomness is a parameter:

- A `Draw` carries the two `rand()` results one `topWord` call may use.
- An `Attempt` carries the `rand()` result of one `speakTwitch` call and
  the draws of that call.

A file system is a map from name to content. A failed open for reading is
an absent name, and the names in `unwritable` fail to open for writing.
`Files.FileSystem` stands for the program's environment: its constructor
sets up the files present when the program starts, and models no line of
the program itself.

## Model

| member | source | states |
|---|---|---|
| Words.Fresh | word.hpp:64-65 | `Word(txt)` has the text, weight 1, no tags and no children |
| Words.IsEndOfSentenceIff | word.hpp:43-50 | a word ends a sentence exactly when its text holds '.', '!' or '?' |
| Words.MergeInto | word.hpp:89-102 | merging a word list into a child map adds exactly the first word's text to the keys, and adds nothing for an empty list |
| Words.MergeIntoKeyedByText | word.hpp:93-95 | every node stays stored under its own text |
| Words.AddWordInChain | word.hpp:89-102 | the node keeps its text, weight and tags; an empty list changes nothing; otherwise the child keys grow by exactly the first word's text |
| Words.MergeIntoPath | word.hpp:89-102 | for every path p: p exists afterwards exactly when it existed or the list starts with p; its weight grows by 1 exactly when the list starts with p; a path the list does not start with is unchanged; an existing node keeps its text and tags, and a new one takes the incoming word's |
| Words.MergeIntoHead | word.hpp:93-101 | top level of one merge: the first word's node is found or inserted, gains 1 if it existed, and takes the rest of the list; every other key is untouched |
| Words.MergeIntoEmpty | word.hpp:90-91 | an empty word list leaves the map as it was |
| Words.GetWord | word.hpp:115-117 | the child keyed `key` when there is one, and nothing (the `out_of_range` throw) otherwise |
| Words.ChildList | word.hpp:121-124 | one entry per child, each a child of the node |
| Words.ChildListCovers | word.hpp:121-124 | every child is in the list |
| Words.SortByWeight | word.hpp:126-129 | in-place sort: afterwards the weights are non-increasing and the array is a permutation of the old one |
| Words.CountsPermutation | word.hpp:126-129 | how many children are heavier (or at least as heavy) than a weight does not depend on the order |
| Words.SortedRank | word.hpp:126-129 | in a weight-sorted list, fewer than i + 1 words are heavier than word i, and more than i weigh at least as much |
| Words.TopRank | word.hpp:138-145 | the picked rank is below 10 and below the child count |
| Words.TopRankReachable | word.hpp:138-145 | every rank below min(10, child count) can be picked |
| Words.TopWord | word.hpp:119-149 | with no children the result is the weight-0, empty-text placeholder; otherwise it is a child that sits at the drawn rank of some descending-weight order of the children |
| Words.SortedPick | word.hpp:126-146 | any position of a weight-sorted permutation of the children is a valid rank pick |
| Words.HeaviestFrom | word.hpp:74-77 | the loop result is the starting candidate or one of the keys it scanned |
| Words.Heaviest | word.hpp:69-77 | the chosen child, if any, is a child of the node |
| Words.HeaviestFromSpec | word.hpp:74-77 | the scan keeps the candidate unless a later key is strictly heavier, and then returns the first key of maximal weight |
| Words.HeaviestIsFirstMaximum | word.hpp:69-77 | the heaviest child is the first key in map order of maximal positive weight; none is chosen exactly when no child has positive weight |
| Words.TopPath | word.hpp:68-87 | the appended words start with the node's own text |
| Words.TopPathLeaf | word.hpp:72-73 | a node without children appends only its own text |
| Words.TopPathStuck | word.hpp:69-86 | when no child has positive weight, the placeholder's empty text is appended and the walk stops |
| Words.TopPathEnd | word.hpp:80-82 | a heaviest child that ends a sentence is appended and ends the walk |
| Words.TopPathStep | word.hpp:83-84 | otherwise the walk continues from the heaviest child |
| Words.TopPathInner | word.hpp:68-87 | no appended word but the last ends a sentence |
| Words.OutputTopSentence | word.hpp:68-87 | the vector grows by exactly `TopPath` |
| Words.HeaviestChild | word.hpp:74-77 | the loop computes `Heaviest` |
| WordFormat.OpenStream | word.hpp:165-185 | an opened stream has not failed, and each of its tokens is non-empty and whitespace-free |
| WordFormat.ReadText | word.hpp:166 | a string read takes the next token; at the end of input the stream fails and the target keeps its value |
| WordFormat.ReadInt | word.hpp:166 | an `int` read on a failed or exhausted stream fails and keeps the target; a result always fits an `int` |
| WordFormat.ReadCount | word.hpp:167-168 | a `size_t` read on a failed or exhausted stream fails and keeps the target; a result always fits a `size_t` |
| WordFormat.ReadTags | word.hpp:169-173 | the tag loop appends exactly n strings, all empty on a failed stream |
| WordFormat.ParseWord | word.hpp:165-185 | a node read never moves the stream back and leaves a failed stream as it was |
| WordFormat.ParseChildren | word.hpp:175-182 | the child loop never moves the stream back and leaves a failed stream as it was |
| WordFormat.ParseWordFailed | word.hpp:165-185 | every read on a failed stream leaves the fresh node as it was |
| WordFormat.ParseChildrenFailedStep | word.hpp:175-182 | on a failed stream each further round inserts the empty key with a fresh node |
| WordFormat.FieldsAreFields | word.hpp:151-163 | every field `operator<<` writes for a well-formed node is one token |
| WordFormat.ParseWordOfFields | word.hpp:151-185 | reading what `operator<<` wrote gives back the same node and leaves the stream just after it |
| WordFormat.ParseEntries | word.hpp:175-182 | the child loop reads back a run of written children, the first of two equal keys winning |
| WordFormat.RenderRoundTrip | word.hpp:151-185 | parsing the text `operator<<` writes for a well-formed node, whatever follows it, gives back that node and leaves the stream at what follows |
| Store.WriteRoots | loadandsave.hpp:82-84 | the loop writes key and node of each root in key order |
| Store.FirstWins | loadandsave.hpp:59-65 | roots already loaded win over later ones with the same key, and all keys are kept |
| Store.ReadRoots | loadandsave.hpp:59-65 | the root loop reads exactly what a node's child loop reads |
| Store.RootsParse | loadandsave.hpp:59-65 | reading the written roots gives back the map |
| Store.LoadOrderedOfStore | loadandsave.hpp:44-85 | loading the order and the roots from what was saved gives back both, whatever order the caller held |
| Store.LoadUnorderedOfStore | main.cpp:181-220 | loading the header-less file gives back the map |
| Store.LoadOrderedEmpty | loadandsave.hpp:54-59 | an empty file gives no roots and keeps the caller's order |
| Store.DuplicateRootFirstWins | loadandsave.hpp:63-64 | a file that lists a root key twice loads the first node given for it |
| Files.FileSystem.Read | database.hpp:63-68 | an open for reading succeeds exactly when the file exists, and yields its content |
| Files.FileSystem.Create | database.hpp:103-104 | an open for writing fails exactly for the unwritable names; otherwise the file exists and is empty |
| Files.FileSystem.Write | database.hpp:118 | closing the output stream appends its buffered text |
| Files.FileSystem.Remove | database.hpp:117 | `remove` deletes the file |
| Chain.FreshWords | reader.hpp:60-63 | one fresh weight-1 childless word per token, in order |
| Chain.FreshWordsTexts | reader.hpp:60-63 | the words' texts are the tokens |
| Chain.WindowCount | reader.hpp:75-76 | L words and order n give max(0, L - n + 1) windows, and none for n < 1 |
| Chain.WindowAt | reader.hpp:79-88 | window k is words k to k + n - 1 |
| Chain.LearnNextWindow | reader.hpp:90-100 | learning window k merges words k to k + n - 1 into the result of the earlier windows |
| Chain.WindowsFresh | reader.hpp:80-88 | windows of fresh words hold fresh words |
| Chain.LearnPaths | reader.hpp:71-104 | after learning, every path's weight has grown by the number of windows that start with it; a node exists exactly when it did before or some window starts with its path; other paths are unchanged |
| Chain.LearnKeyedByText | reader.hpp:93-100 | learning keeps every root under its own text |
| Chain.TooLongPath | reader.hpp:79-88 | no window starts with a path longer than the order |
| Chain.LearnFromEmpty | reader.hpp:71-104 | from an empty map, the node at a path exists exactly when some window starts with it, and its weight is the number of such windows |
| Chain.LearnWindow | reader.hpp:90-100 | a new root is the window's first word with weight 1, an existing one gains 1, and `addWordInChain` takes the rest: one merge of the window |
| Learner.Held | reader.hpp:116 | the words of a list whose every slot still owns its word |
| Learner.Owned | reader.hpp:116 | a list of owned words holds exactly those words |
| Learner.Reader.constructor | reader.hpp:45 | the word list starts empty |
| Learner.Reader.ReadFrom | reader.hpp:56-66 | one fresh word per whitespace-separated token is appended, in input order |
| Learner.Reader.GenerateMainTree | reader.hpp:68-114 | the result is the old roots with every window of the list learned in order; the list is empty afterwards, even when nothing was learned |
| Learner.Reader.MoveWindow | reader.hpp:79-91 | the window is words k to k + n - 1; only the first is moved out of the list, and the others are copied |
| Learner.ReadWords | reader.hpp:59-63 | the extraction loop yields one owned fresh word per token |
| StdinLearner.ReadStdin | readstdin.hpp:51-98 | with order 3 by default, the result is the old roots with every window of the input's tokens learned in order |
| StdinLearner.LearnWindows | readstdin.hpp:63-98 | the window loop learns every window of the list in order |
| StdinLearner.TakeWindow | readstdin.hpp:72-85 | the window is words x to x + n - 1; only word x is moved out, and x advances once, inside the first step |
| Database.BackupName | database.hpp:59-61 | the backup is named "." + f + ".bak", which is never f |
| Database.LoadFile | database.hpp:53-91 | the backup is read when it opens and f otherwise; with neither, the map is empty and the order untouched; an opened file gives its order and roots |
| Database.BackupPreferred | database.hpp:63-66 | once the backup exists, f's content plays no part in loading |
| Database.TruncateBackup | database.hpp:100-101 | the backup is created empty, or truncated to empty |
| Database.Save | database.hpp:93-119 | the backup is truncated; if f cannot be opened nothing else happens; otherwise f is truncated, the backup removed, and f receives the order, the count and the roots; each state is recorded |
| Database.EmptyBackupHidesFile | database.hpp:63-66 | an empty backup makes every load come back empty with the order untouched |
| Database.FailedSaveLosesRoots | database.hpp:100-117 | whatever other files exist, a database f held with no backup beside it is lost by a save that fails to open f, and by a crash at any step before f is closed |
| Database.LoadIgnoresOthers | database.hpp:58-66 | a file other than f and its backup plays no part in loading |
| Database.CopyToBackup | database.hpp:100-101 | corrected first step: an existing backup is kept; otherwise f, when present, is copied to a temporary file that one rename turns into the backup; the save goes on exactly when the backup exists, there was no f, or the copy could be made |
| Database.CopyStepsLoad | database.hpp:100-101 | every state of the corrected copy, and the state it leaves, loads like the files before it |
| Database.WriteThenDropBackup | database.hpp:103-118 | corrected order: f is truncated and written, and only then is the backup removed; nothing happens after a failed open of f |
| Database.SaveWithBackup | database.hpp:93-119 | corrected save: the history is the copy's states followed by those of writing f and removing the backup, and stops after a copy that failed |
| Database.SaveWithBackupSnapshots | database.hpp:93-119 | from any files, stale backup included, every state of the corrected save loads like the files before it or the saved roots and order; the last loads the saved roots and order when the save went through, and like the files before it otherwise |
| LoadAndSave.LoadFile | loadandsave.hpp:44-70 | an absent file gives an empty map and the caller's order; otherwise the order, the count and the roots are read |
| LoadAndSave.ReadOrderedFile | loadandsave.hpp:54-65 | the reads of an opened file give `LoadOrdered` |
| LoadAndSave.WriteOrderedFile | loadandsave.hpp:80-84 | the written text is the order, the count and the roots |
| LoadAndSave.Save | loadandsave.hpp:72-85 | always "data.txt"; nothing changes when it cannot be opened; otherwise it holds the written text |
| LoadAndSave.SaveThenLoad | loadandsave.hpp:44-85 | loading "data.txt" after a save gives back the roots and the order |
| Generation.RootList | voice.hpp:51-54 | one node per root |
| Generation.SortedSnapshot | voice.hpp:46-60 | the snapshot is sorted by non-increasing weight and is a permutation of the roots |
| Generation.SnapshotCovers | speak.hpp:40-49 | the snapshot has as many nodes as there are roots, and each root is in it |
| Generation.Starts | speak.hpp:52-55 | the seeds are no more than the snapshot's words from the position on |
| Generation.StartsAreCapitalised | speak.hpp:52-55 | every seed is a capitalised word of the snapshot |
| Generation.CapitalisedAreStarts | speak.hpp:52-55 | every capitalised word of the snapshot is a seed |
| Generation.FindText | voice.hpp:86-89 | `find_if` gives the first word with the text, or says that none has it |
| Generation.ExtendSentence | voice.hpp:83-96 | the loop's result is a run: each appended word was picked by `topWord` on the sentence so far, and the run ends where the rules say |
| Generation.SaidStops | speak.hpp:60-70 | a finished sentence is the seed plus the picks; its last word ends a sentence, or the context lookup failed |
| Generation.EndingSaid | speak.hpp:60-70 | a run ends as a sentence only where the last word ends one or the context is not a root |
| Generation.PickRanked | word.hpp:119-149 | each appended word is the placeholder of a leaf, or a child of the chosen node with at most 9 heavier siblings |
| Generation.NeverUndefined | voice.hpp:84-85 | with an order of at least 2 and a seed of at least N - 1 words the context index is always valid |
| Generation.OrderBelowTwo | voice.hpp:84-85 | with an order below 2 the context index is past the end, on the first pass |
| Generation.ContextsAgree | speak.hpp:62-66 | when roots are keyed by their text, looking up the context in the snapshot (voice.hpp) and in the live map (speak.hpp) finds the same node |
| Generation.SpeakFrom | speak.hpp:51-78 | the sentence loop speaks one run per capitalised root in snapshot order, stopping at the limit or at a run that does not finish |
| Generation.SpokenSeeds | speak.hpp:51-78 | sentence i is seeded by the path of the i-th capitalised root, and there are no more sentences than the limit |
| Generation.SpeakOne | speak.hpp:57-70 | one sentence is the root's `outputTopSentence` path followed by an extension run |
| Generation.SpaceWords | voice.hpp:98-101 | the output text is every word followed by one space |
| Generation.SpacedRoundTrip | voice.hpp:98-101 | splitting the output text on whitespace gives the words back |
| VoiceModel.FirstCapitalised | voice.hpp:68-74 | the first capitalised position at or after the start, or none |
| VoiceModel.RandomPos | voice.hpp:65 | `rand() % range` lies below the magnitude of the range |
| VoiceModel.FindFirstWords | voice.hpp:62-76 | the `outputTopSentence` path of the first capitalised root at or after the random position, without wrapping round, or nothing |
| VoiceModel.TwitchAttempt | voice.hpp:78-101 | one attempt is the seed, then the extension run on the snapshot |
| VoiceModel.Twitch | voice.hpp:78-108 | attempts are made while the sentence has more than 20 words; the text is the last sentence's words, each followed by a space |
| VoiceModel.Voice.constructor | voice.hpp:40 | no snapshot yet, and order 3 |
| VoiceModel.Voice.SetMarkov | voice.hpp:42-44 | sets the order and nothing else |
| VoiceModel.Voice.GenerateSortedVector | voice.hpp:46-60 | the old snapshot is replaced by the roots sorted by non-increasing weight |
| VoiceModel.Voice.SpeakTwitch | voice.hpp:78-108 | the twitch loop on the object's snapshot and order |
| VoiceModel.Voice.Speak | voice.hpp:110-145 | the sentence loop on the snapshot, with context looked up in the snapshot; a count below 1 acts as 1: at most one sentence, from the first capitalised root, and none when no root is capitalised |
| VoiceModel.TwitchSaid | voice.hpp:78-108 | a returned sentence has at most 20 words, and it comes from the last attempt's first capitalised root at or after its random position |
| VoiceModel.TwitchNeedsTwoRoots | voice.hpp:81 | with fewer than two roots the first attempt reaches `rand() % 0` |
| Speaker.SentenceLimit | speak.hpp:75-77 | a count below 1 is never reached, so it imposes no limit |
| Speaker.Speak | speak.hpp:38-79 | the snapshot is sorted and a permutation of the roots, and the sentence loop runs on it, with context looked up in the live map |
| Speaker.EverySeedWhenUnlimited | speak.hpp:75-77 | with a count below 1, or one at least the number of capitalised roots, a run in which every sentence finishes speaks one sentence per capitalised root |
| MainProgram.OrderByWeightStrictWeak | main.cpp:152-156 | `orderByWeight` is a strict weak order, and two words are equivalent exactly when their weights are equal |
| MainProgram.OrderByWeightSorted | main.cpp:152-156 | sorted by it means non-increasing weight |
| MainProgram.MarkovWeightOrdering | main.cpp:159-165 | returns true exactly on equal texts, and then adds 1 to the first word's weight; nothing else changes |
| MainProgram.AlphabetOrder | main.cpp:167-175 | the loop computes case-insensitive lexicographic less-than |
| MainProgram.CaseLessPrefix | main.cpp:174 | a proper prefix, up to case, sorts first |
| MainProgram.CaseLessStrict | main.cpp:167-175 | `alphabetOrder` is irreflexive, asymmetric and transitive; two texts are equivalent exactly when equal up to case |
| MainProgram.LoadFile | main.cpp:181-206 | an absent file gives an empty map; otherwise the count and the roots are read |
| MainProgram.Save | main.cpp:208-220 | always "data.txt"; nothing changes when it cannot be opened; otherwise it holds the count and the roots |
| MainProgram.WriteUnorderedFile | main.cpp:216-219 | the written text is the count and the roots |
| MainProgram.SaveThenLoad | main.cpp:181-220 | loading after a save gives back the map |
| MainProgram.SentenceLen | main.cpp:265-277 | a non-empty input's first chunk is between 1 word and the whole input |
| MainProgram.SentenceLenSpec | main.cpp:265-277 | the first chunk ends at the first sentence end, or at the end of input |
| MainProgram.SentencesSplit | main.cpp:263-278 | the chunks are non-empty, concatenate back to the input, and each ends at its first sentence end (the last may instead end with the input) |
| MainProgram.SentenceSplitUnique | main.cpp:263-278 | no other split has those properties |
| MainProgram.LearnSentences | main.cpp:263-291 | the result is the old roots with every chunk learned in order |
| MainProgram.TakeSentence | main.cpp:264-277 | one chunk: the slots moved from are exactly the chunk's, and the rest of the input splits on |
| MainProgram.MoveRun | main.cpp:265-272 | the inner loop moves the run of words that do not end a sentence |
| MainProgram.ReadStdin | main.cpp:248-298 | every chunk of the input is learned and the result saved to "data.txt" |
| MainProgram.LearnSentencesPaths | main.cpp:263-291 | each path's weight grows by the number of chunks that start with it, and a node exists exactly when it did or some chunk starts with its path |
| Gutenberg.CountUpper | gutenbergparser.hpp:36-42 | no more upper-case letters than characters |
| Gutenberg.GutenbergParser.IsAllUpper | gutenbergparser.hpp:34-47 | true exactly when upper-case letters make up more than half of all characters; false for the empty line |
| Gutenberg.GutenbergParser.FiveSpaces | gutenbergparser.hpp:49-60 | true exactly when the line has at least six characters and the first six are spaces |
| Gutenberg.GutenbergParser.FiveSpacesAndNum | gutenbergparser.hpp:62-76 | true exactly when five spaces are directly followed by a digit somewhere in the line |
| Gutenberg.FiveSpacesAtChars | gutenbergparser.hpp:66-69 | the loop's character test, reading at most the terminating '\0', matches five spaces and a digit within the line |
| Gutenberg.CharAt | gutenbergparser.hpp:66-69 | position `size()` reads the terminating '\0' |
| Gutenberg.Substr0 | gutenbergparser.hpp:104-107 | `substr(0, n)` is a prefix of at most n characters, and exactly n when the line is that long |
| Gutenberg.LineState | gutenbergparser.hpp:83-126 | the state is one of the four the parser knows |
| Gutenberg.GutenbergParser.Classify | gutenbergparser.hpp:83-126 | the line's state is that of the first test in source order that matches; the kept text is untouched |
| Gutenberg.Without | gutenbergparser.hpp:144-145 | the erase-remove removes every occurrence of the character and nothing else |
| Gutenberg.Clean | gutenbergparser.hpp:144-145 | a kept line has no '\|' and no '_' |
| Gutenberg.NextStart | gutenbergparser.hpp:130-135 | the first line at or after the position that holds the start marker, or none |
| Gutenberg.GutenbergParser.constructor | gutenbergparser.hpp:32 | the default state and no text |
| Gutenberg.GutenbergParser.Read | gutenbergparser.hpp:78-152 | the kept text is appended to the stream and the state ends as the reading says |
| Gutenberg.GutenbergParser.ReadLine | gutenbergparser.hpp:81-148 | one turn of the read loop: classification, then the state's action |
| Gutenberg.GutenbergParser.Act | gutenbergparser.hpp:128-148 | the switch: skip to the start marker, drop the line, drop the rest, or keep the cleaned line and one space |
| Gutenberg.GutenbergParser.SkipToStart | gutenbergparser.hpp:130-135 | lines are read up to and including the start marker, after which the state is the default; with no marker all input is read |
| Gutenberg.GutenbergParser.SkipAll | gutenbergparser.hpp:141 | the rest of the input is read |
| Gutenberg.KeptHasNoMarks | gutenbergparser.hpp:143-147 | nothing kept holds '\|' or '_' |
| Gutenberg.EndKeepsNothing | gutenbergparser.hpp:140-142 | an end line keeps nothing more, and the state stays END |
| Gutenberg.ParseShift | gutenbergparser.hpp:81-149 | reading resumes the same way whatever lines were read before |
| Gutenberg.NoticeSkipsHeader | gutenbergparser.hpp:129-136 | after the notice line everything up to and including the start marker is dropped, and reading goes on in the default state |
| Gutenberg.NoticeWithoutStartKeepsNothing | gutenbergparser.hpp:129-136 | a notice line with no start marker after it drops the rest of the input |
| Gutenberg.ParseAppend | gutenbergparser.hpp:81-149 | without notice or end lines, each line is kept or dropped on its own: reading two pieces concatenates their texts |
| Gutenberg.ParseKeepsLines | gutenbergparser.hpp:137-147 | without notice or end lines, the kept text is every line that is not a bad line, cleaned and followed by one space, in order |
| IrcClient.UserEntry | irc.hpp:198-204 | the entry is the line after its first character, cut at the first '!', plus " JOIN" when the line holds JOIN and " PART" otherwise |
| IrcClient.FormatNiceOutput | irc.hpp:359-368 | the result is the text after the first ':' at or after "PRIVMSG" |
| IrcClient.PongEchoesPing | irc.hpp:187-189 | a ping "PING x" is answered "PONG x" |
| IrcClient.QueuedTextAvoidsKeywords | irc.hpp:187-213 | a queued message holds none of PING, JOIN or PART, since those lines go to earlier branches |
| IrcClient.Head | irc.hpp:373-376 | the command followed by exactly one space |
| IrcClient.FormatString | irc.hpp:371-395 | "USER s s s :s" for USER; a '#' before the parameter for JOIN and PRIVMSG when it lacks one; the parameter otherwise; always CR-LF at the end |
| IrcClient.UserParams | irc.hpp:378-386 | the USER loop writes the parameter three times and then ':' |
| IrcClient.SentenceWords | irc.hpp:154-164 | one fresh word per token, the first tagged BEGIN and the last ENDL |
| IrcClient.CachedTexts | irc.hpp:153-168 | the collected words are the queue's tokens, in order |
| IrcClient.CachedBegins | irc.hpp:153-168 | one word per token, and one BEGIN tag per queued sentence |
| IrcClient.JoinedTokens | irc.hpp:56-66 | the client read as a stream gives the same words as the cached sentences |
| IrcClient.PartSweepRemovesOnlyParts | irc.hpp:443-453 | the sweep only removes entries, and only entries that hold "PART" |
| IrcClient.PartSweepKeepsSecondPart | irc.hpp:447-451 | of two PART entries in a row the second survives, since the entry swapped in is not checked |
| IrcClient.PartSweepDropsPartInNick | irc.hpp:448 | a JOIN entry whose nick holds "PART" is removed too |
| IrcClient.SweptLongEnough | irc.hpp:443-453 | entries keep room for the five-character suffix after the sweep |
| IrcClient.Irc.constructor | irc.hpp:102-109 | the connection settings, with port "6667" and no password by default; nothing recorded or queued |
| IrcClient.Irc.ParseOutput | irc.hpp:184-218 | PING answers, an exact DISCONNECT stops, JOIN/PART records a user, PRIVMSG with '#' queues the text, in that priority; nothing else changes |
| IrcClient.Irc.RecordUser | irc.hpp:196-208 | the user entry is appended |
| IrcClient.Irc.SendPong | irc.hpp:407-417 | "PONG " and the line from index 5 on is sent |
| IrcClient.Irc.FormatPrivMsg | irc.hpp:397-405 | "PRIVMSG #channel :msg" and CR-LF, from the client's own channel whatever the arguments |
| IrcClient.Irc.DoUsersCharacteristics | irc.hpp:419-441 | each word gains NAME exactly when its lower-cased text contains some entry's nick |
| IrcClient.Irc.IsUserName | irc.hpp:425-438 | the inner loop finds a match exactly when some nick occurs in the lowered word |
| IrcClient.Irc.DoUsersPart | irc.hpp:443-453 | the entries become the sweep's result; nothing else changes |
| IrcClient.Irc.GetCachedSentences | irc.hpp:142-179 | nothing for an empty queue; otherwise the queue's words with BEGIN/ENDL and NAME tags, then the PART sweep, with the queue emptied |
| IrcClient.Irc.Collect | irc.hpp:153-168 | the loop over the queue collects `Cached` |
| IrcClient.Irc.SplitSentence | irc.hpp:154-164 | one queued sentence's tagged words |
| IrcClient.Irc.Read | irc.hpp:56-66 | the stream holds every queued sentence followed by a space, and the queue is emptied |
| Text.Tokenize | reader.hpp:59-63 | every extracted token is non-empty and whitespace-free |
| Text.TokenizeLines | word.hpp:151-185 | fields written one per line are read back as the same fields |
| Text.SortedKeys | word.hpp:159-161 | a range-for over a `std::map` visits each key once |
| Text.SortedKeysSorted | word.hpp:159-161 | and in strictly increasing key order |
| Text.NumberPrefixOfIntToDec | word.hpp:152-166 | a number written with `<<` is read back whole by `>>` |
| Text.Lower | irc.hpp:430-431 | lower-casing maps each character through `tolower` in the C locale |

## Left out

- Console output is not modelled. This covers `printInfo`, every `cout` line, `outputHelp`, and main.cpp's print-only `Word::outputTopSentence` (main.cpp:65-76). It also covers the weight speak.hpp prints after each sentence (speak.hpp:74).
- `main()` is not modelled: its argument parsing (main.cpp:306-337) is process glue.
- `Database::operator>>` (database.hpp:37-51) only copies a file into a stream, and is not modelled.
- The copy constructor (word.hpp:54-63) needs no model of its own. Nodes are values, so a copy equals its original and shares nothing with it.
- Allocation, ownership, and the nodes `outputTopSentence` leaks are not modelled. A moved-from list slot is `None`.
- `srand(time(NULL))` and `rand()` become parameters: a `Draw` per `topWord` call, and an `Attempt` per `speakTwitch` call.
- Words.TopRank: `topWord` reseeds with `srand(time(NULL))` before its second `rand()` (word.hpp:142-143), so within the same second the second draw repeats the first. The model takes the two draws of a `Draw` as independent, which admits more outcomes than the source can produce; every property is stated for all draws, so each also holds for the source's.
- Generation.ExtendSentence: the source's extension loop has no bound. The model's loop stops with `OutOfDraws` when the given draws run out. The model does not claim that the source's loop ends.
- VoiceModel.Twitch: `speakTwitch` calls itself again for a sentence longer than 20 words. The model takes a finite list of attempts and ends with `OutOfDraws` when all are too long.
- The order of equal weights after `std::sort` is unspecified, so the model states only a sorted permutation. Words.TopWord accordingly promises a child at the drawn rank of some descending-weight order, not the one `std::sort` would produce.
- Undefined behaviour and exceptions in the generator become outcomes rather than preconditions:
  - `Undefined` covers a negative context index, `back()` on an empty sentence and `rand() % 0`.
  - `Thrown` covers the `out_of_range` of `getWord`.
- Gutenberg.GutenbergParser.IsAllUpper: the float test `up / size > 0.5` (gutenbergparser.hpp:43) is modelled as the integer test `2 * up > size`. The two agree for every line shorter than 2^23 characters.
- Characters are the C locale's ASCII classes (`isupper`, `isalpha`, `isdigit`, `isspace`, `tolower`). Signed `char` values passed to these functions are not modelled.
- Integer widths:
  - A node's weight and the chain order are unbounded integers. The increment of a weight at `INT_MAX` is not modelled.
  - The round trip requires weights to fit an `int`, and counts a `size_t`.
  - The `int` loop counters compared with a `size_t` count are not modelled.
- `operator>>` of a node reads its tag count into a `size_t` that is never initialised (word.hpp:167). The model takes it to hold 0 when that read fails.
- WordFormat.ReadInt: the conversion rules are those of C++11 `num_get`. A token that does not start with a number stores 0, and a value out of range stores the nearest bound; both set the fail flag. Locale-specific grouping is not modelled.
- File streams:
  - The content of a file is read all at once.
  - `ofstream` writes its buffer when it is closed.
  - An open for writing fails only for the names in `unwritable`.
  - Disk-full and partial writes are not modelled.
- The `getline` loop of the Gutenberg parser takes the lines as a list.
- `operator<<` of the Gutenberg parser writes nothing (gutenbergparser.hpp:154-156), and is not modelled.
- The Gutenberg classification tests are pure, so the model evaluates them in the order the if-chain names them.
- gutenbergparser.hpp:49-60: `fiveSpaces` checks six spaces, not five. The model follows the code.
- The IRC client's networking is not modelled: `ircConnect`, `sendConnect`, `isConnected`, `sendData`, `recvData`, `start` and `say` (irc.hpp:124-140, 220-357), irc.cpp and irc.h.
  - What the client would send is appended to `sent`.
  - The copy constructor and the destructor (irc.hpp:111-122) concern the socket only.
- The IRC client's atomics, mutexes and lock guards are not modelled; the model runs sequentially.
- The tag constants `CHARACTER_BEGIN`, `CHARACTER_ENDL` and `CHARACTER_NAME` are not defined in any file of the program. The model uses the strings "BEGIN", "ENDL" and "NAME", and appends a tag to a node's tag list.
- `formatNiceOutput` also computes a `channel` string that it never uses (irc.hpp:364), and the model drops it.
- Inputs on which the IRC code throws or is undefined are preconditions rather than modelled outcomes:
  - a JOIN or PART line without '!' after its first character (irc.hpp:200);
  - a PRIVMSG line without ':' after "PRIVMSG" (irc.hpp:364);
  - a line that holds "PING" but is shorter than 5 characters (irc.hpp:409);
  - a queued sentence with no word, where `front()` is undefined (irc.hpp:163);
  - an empty command in `formatString` (irc.hpp:375).
- Learner.Reader.GenerateMainTree and StdinLearner.ReadStdin require an order other than 0 when there are words. An order of 0 takes `front()` of an empty list (reader.hpp:90).
- readstdin.hpp's `readSTDIN` ends with `save(myMap)` (readstdin.hpp:104), which matches no `save` the program defines, and is not modelled.
- The three `loadFile`/`save` pairs run on one file system, so the model does not keep them apart as separate translation units.

## Findings

| source | as written | input that shows it | evidently intended | confidence | as-written member | corrected member |
|---|---|---|---|---|---|---|
| database.hpp:100-117 | `save` opens the backup with an `ofstream`, which truncates it to empty, instead of copying f into it. It then returns early when f cannot be opened, leaving the empty backup behind, and `loadFile` prefers any backup that opens. | f holds a saved database and no backup exists, and f cannot be opened for writing (or the process stops before f is closed). Afterwards every load returns an empty map, though f still holds the database. | The database that loads is kept in the backup, put in place by one rename of a copy, before f is truncated, and the backup goes only once f is written. Then every state a failed or interrupted save leaves loads the previous database or the new one. | high; not executed | Database.FailedSaveLosesRoots | Database.SaveWithBackupSnapshots |
