# exam-quiz in Dafny

A model of the two non-DOM components of the exam-quiz browser app, with
proofs about them:

- **The question store** (`QuizDB`, db.js). It is an IndexedDB database
  with a `questions` object store keyed by `id` and a `settings` object
  store keyed by `key`. The model covers three things. The upgrade step
  creates each store only when it is missing. `storeQuestions` puts every
  record of a batch, replacing any record with the same key. The category
  query filters `getAll()`.
- **The quiz session** (`MathQuiz`, app.js). Its state is the selected
  categories, the question list, the index of the current question and the
  score. The model covers the category checkbox handler, `startQuiz`,
  `displayQuestion`'s answer list, `selectAnswer`, `nextQuestion`, the
  restart button and the in-place Fisher-Yates `shuffleArray`.

Files and modules:

- `seqs.dfy` (`Seqs`): `Filter`, which plays the role of JavaScript's
  `Array.prototype.filter`, with its lemmas.
- `db.dfy` (`QuizDb`): the `Question` record and the `Upgraded` and
  `PutAll` specification functions. Also the classes `ObjectStore` (its
  records as a `map<int, Question>`, its keys as an ascending `seq<int>`)
  and `QuizDB` (the schema as a map from store name to key path, plus the
  `questions` store).
- `shuffling.dfy` (`Shuffling`): the shuffle as a function of its input and
  of the index drawn at each step, with its permutation and reachability
  lemmas.
- `app.dfy` (`Quiz`): the `MathQuiz` class and the screens it shows.

Randomness is a parameter. `shuffleArray` draws
`j = Math.floor(Math.random() * (i + 1))`. The model takes a function
`pick: nat -> nat` from the caller and requires `pick(i) <= i`. Every
result is proved for every such choice. `EveryOrderReachable` proves the
converse: each permutation of the input is produced by some choice.

`put` follows section 6.1 of the W3C Indexed Database API 3.0 ("store a
record into an object store", with no-overwrite false): a record with the
same key is replaced. The model keeps the keys in ascending order because
`getAll()` lists records in ascending key order.

## Model

| member | source | states |
|---|---|---|
| Seqs.Filter | app.js:38-40 | the result holds exactly the elements of the input that satisfy the predicate |
| Seqs.FilterAppend | db.js:50-52 | filtering distributes over concatenation, so the kept elements stay in their original relative order |
| Seqs.FilterCount | app.js:38-40 | each kept value occurs as often as in the input, each dropped value not at all |
| Seqs.FilterEmpty | db.js:50-53 | the result is empty if and only if no element satisfies the predicate |
| Seqs.FilterLength | db.js:50-52 | the result is never longer than the input (used to bound the query's length) |
| Seqs.FilterKeepsAll | db.js:50-52 | when every element is kept, the result is the input itself (used for selecting every category) |
| QuizDb.Upgraded | db.js:18-26 | after the upgrade both `questions` (key path `id`) and `settings` (key path `key`) exist, existing stores keep their key paths, and no other store is added |
| QuizDb.UpgradedIdempotent | db.js:18-26 | running the upgrade a second time changes nothing |
| QuizDb.PutAll | db.js:34-36 | after putting a batch, the keys are the old keys plus the batch's ids, and records under other keys are unchanged |
| QuizDb.PutAllSnoc | db.js:34-36 | putting one more record is one more insert-or-replace at its id |
| QuizDb.PutAllLastWriteWins | db.js:34-36 | each id in the batch holds the last record of the batch with that id |
| QuizDb.PutAllOverwrites | db.js:34-36 | what an id in the batch ends up holding does not depend on what was stored before |
| QuizDb.PutAllIdempotent | db.js:34-36 | storing the same batch twice gives the same records as storing it once |
| QuizDb.ByCategory | db.js:50-52 | a record is in the result if and only if it is in the input and its category is one of the given categories |
| QuizDb.ByCategoryKeepsOrder | db.js:46-52 | the filter keeps ascending key order |
| QuizDb.IdsIncreasingDistinct | db.js:46-52 | in a listing in ascending key order each record occurs at most once, so the query never repeats a row |
| QuizDb.InsertKey | db.js:35 | inserting a key keeps the key list strictly ascending and adds exactly that key |
| QuizDb.IncreasingUnique | db.js:46 | two strictly ascending key lists with the same members are equal, so the `getAll` order is fixed by the set of keys |
| QuizDb.IncreasingCardinality | db.js:46 | a strictly ascending key list has no repeated key |
| QuizDb.RowsCount | db.js:46 | listing a well-keyed store gives one row per record |
| QuizDb.RowsMembers | db.js:46 | the listed rows are exactly the stored records |
| QuizDb.RowsOrdered | db.js:46 | the listed rows come in ascending key order |
| QuizDb.ObjectStore.constructor | db.js:21 | a newly created object store has no records and no keys. The model allocates the `questions` store with the database, and `QuizDB.Valid` keeps it empty until the upgrade registers it |
| QuizDb.ObjectStore.Put | db.js:35 | `put` stores the record under its id, replacing any record there, and keeps the key list ascending |
| QuizDb.ObjectStore.GetAll | db.js:46 | `getAll` lists every stored record once, in ascending key order |
| QuizDb.SameRecordsSameRows | db.js:46 | two stores with the same records list them identically |
| QuizDb.QuizDB.constructor | db.js:2-6 | a database that does not exist yet has no object stores and no records |
| QuizDb.QuizDB.Init | db.js:18-26 | the schema becomes the upgraded schema. A `questions` store created by this upgrade is empty, and an existing one keeps its records |
| QuizDb.QuizDB.StoreQuestions | db.js:30-36 | the loop of `put` calls leaves the records that `PutAll` describes, and the store stays well keyed |
| QuizDb.QuizDB.GetQuestionsByCategory | db.js:43-56 | the query filters the `getAll` listing and never returns more rows than the store holds |
| QuizDb.QuizDB.QueryExact | db.js:43-53 | `getQuestionsByCategory` returns exactly the stored records whose category is listed, with no extras and no omissions, in ascending key order |
| QuizDb.QuizDB.AllCategoriesReturnAll | db.js:46-52 | when every stored category is selected, the query returns the whole `getAll` listing |
| QuizDb.QuizDB.EmptyWhenNoneMatches | db.js:50-53 | the query returns the empty sequence, not a failure, exactly when no stored record matches |
| Shuffling.ShuffleDown | app.js:163-166 | the loop's steps from position i down to 1 keep the length |
| Shuffling.Shuffled | app.js:162-167 | the shuffle keeps the length and leaves sequences of length 0 or 1 unchanged |
| Shuffling.SwapExchanges | app.js:165 | the destructuring swap of `Swap` keeps the length, exchanges positions i and j, and leaves every other position alone |
| Shuffling.SwapPermutes | app.js:165 | a swap keeps the multiset of elements |
| Shuffling.ShuffleDownPermutes | app.js:163-166 | any number of loop steps keeps the multiset of elements |
| Shuffling.ShuffledPermutes | app.js:162-167 | the shuffle is a permutation of its input for every choice of indices in range |
| Shuffling.ShuffleDownPrefix | app.js:163-166 | the steps up to position i touch only the first i + 1 elements |
| Shuffling.ShuffleDownSameDraws | app.js:163-166 | the steps up to position i depend only on the indices drawn at those steps |
| Shuffling.LastStepFirst | app.js:163-166 | the first step fixes the last position, and the rest shuffles the part in front of it |
| Shuffling.ExtendShuffle | app.js:163-166 | if the first step puts the right element last and the other draws order the rest correctly, the whole shuffle yields the target order |
| Shuffling.EveryOrderReachable | app.js:162-167 | every permutation of the input is the result of some choice of indices in range |
| Quiz.AnswerChoices | app.js:92-96 | the offered answers are a permutation of the correct answer followed by the incorrect ones, so they include the correct answer |
| Quiz.Unchecked | app.js:38-40 | after unchecking, the value is gone from the list and every other value is present exactly when it was before |
| Quiz.UncheckedKeepsOthers | app.js:38-40 | unchecking keeps every other value as often as it occurred |
| Quiz.UncheckedKeepsOrder | app.js:38-40 | unchecking keeps the other values in their order |
| Quiz.CheckThenUncheck | app.js:35-41 | checking a box and then unchecking it gives the list without that value, otherwise as before |
| Quiz.MathQuiz.constructor | app.js:5-11 | a new session has index 0, score 0, `["arithmetic"]` selected and no questions |
| Quiz.MathQuiz.InitializeApp | app.js:16-29 | after opening and seeding, the schema is upgraded and the records are the seed put over the old ones |
| Quiz.MathQuiz.ToggleCategory | app.js:35-41 | checking appends the value at the end; unchecking removes every occurrence of it |
| Quiz.MathQuiz.CurrentQuestion | app.js:83 | the current question is one of the session's questions |
| Quiz.MathQuiz.ShuffleArray | app.js:162-167 | the array ends as the shuffle function of its old contents with the drawn indices: a permutation, unchanged when it has at most one element |
| Quiz.MathQuiz.QuestionScreen | app.js:86-96 | the question screen's number is between 1 and the question count |
| Quiz.MathQuiz.DisplayQuestion | app.js:82-96 | the screen shows the current question's number, the question count, the score, the prompt, and a permutation of its answers that includes the correct one |
| Quiz.MathQuiz.StartQuiz | app.js:61-80 | with no category selected nothing changes. Otherwise the questions become a shuffle of the category query, so they are a permutation of it. With no match, index and score are left as they were. With a match, index and score become 0 and the first question is shown |
| Quiz.MathQuiz.SelectAnswer | app.js:113-134 | the score goes up by exactly one for the correct answer and is unchanged otherwise; the index never changes |
| Quiz.MathQuiz.NextQuestion | app.js:139-153 | the index goes up by exactly one and the score is unchanged. The next question is shown while one remains; after that the results show the score and the question count |
| Quiz.MathQuiz.Restart | app.js:55-58 | the restart button only returns to category selection and resets nothing |

## Left out

- DOM work is reduced to the `Screen` value each step shows. This covers text content, `innerHTML`, CSS classes, `style.display`, `alert`, `showScreen` and event-listener registration (`setupEventListeners`, app.js:31-59). Which answer is highlighted is not modelled.
- Quiz.MathQuiz.SelectAnswer: the per-question answer lock is not modelled. It exists only as `pointerEvents = 'none'` on DOM nodes (app.js:118), and `selectAnswer` itself does not guard against a second call.
- Quiz.MathQuiz.SelectAnswer: `currentQuestion` is not a field. It is `questions[currentQuestionIndex]`, set at app.js:83, so `SelectAnswer` requires the index to be in range. This is the only time answers can be clicked.
- `Math.random` is replaced by the caller's choice of indices. No claim about the uniformity of the shuffle is made, only that every order is reachable.
- IndexedDB's promises, callbacks, transactions, atomic visibility and commit timing (db.js:9-16, 31, 38-40, 44, 48) are left out. Every operation completes at once.
- Error paths are left out: `request.onerror` (db.js:12), the missing `onerror` handlers of `storeQuestions` and `getQuestionsByCategory`, and `initializeApp`'s `console.error` (app.js:21-23).
- QuizDb.QuizDB.Init: the database name and version handshake (db.js:3-4, 10) are left out. `Init` always runs the upgrade step. This is harmless because the upgrade is idempotent (`UpgradedIdempotent`).
- QuizDb.QuizDB.Valid: the `questions` store object exists in the model before the upgrade registers it in the schema, but it is kept empty until then. Using the store before it is registered, which IndexedDB rejects with a NotFoundError, is excluded by the requires of `StoreQuestions` and `GetQuestionsByCategory` instead of being modelled as an error.
- The JSON import of the question bank (app.js:2) is left out. `InitializeApp` takes the seed batch as a parameter.
- Quiz.MathQuiz.constructor: the JavaScript constructor creates its own database and starts `initializeApp` without awaiting it. The model passes in the database and makes `InitializeApp` a separate call.
- Record ids are modelled as integers, so string or other key types and IndexedDB's ordering across key types are not captured. The `settings` store's contents are not modelled because no code reads or writes them.
- JavaScript numbers are modelled as unbounded naturals for the index and the score. The double-precision limit is never reached in a quiz.

Where the code differs from what a quiz app like this would be expected to do, the model follows the code:

- A selection of categories would be expected to be a set; the code keeps a list. Checking appends even when the value is already present, and unchecking removes every copy.
- A restart would be expected to discard the session; the code resets no state. The selected categories, the questions, the index and the score all carry over until the next `startQuiz`.
- Answering would be expected to lock after the first choice; the code has no such lock in `selectAnswer`, as stated above.
- A failure to open the database would be expected to be reported; the code logs and swallows it. This path is not modelled.
- A random question order would be expected to contain no repeats. The code does not de-duplicate itself. The query yields each stored record once (`GetAll` and `IdsIncreasingDistinct`), and the shuffle is a permutation of it.
