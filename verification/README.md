# Subscription manager: a Dafny model of its core rules

The subscription manager is a browser application that keeps a list of paid subscriptions,
reminds its user of payments, tracks a monthly budget and manages user accounts. Under its
page code sits a set of small rules over lists of records. This project restates those rules
as pure Dafny functions over immutable values and proves what the code promises about them.

Every JavaScript object is a `Js.Record`, a map from field names to `Js.Value`s. An object
spread `{...a, ...b}` is the map union `a + b`, where the right side wins. Numbers are
`Js.Number`, which is a real or NaN. Everything that throws returns a `Js.Outcome`.
localStorage is replaced by the value passed in and returned. The clock is an argument.
Reading a date string is also an argument:
- `instant` gives a millisecond count;
- `civil` gives a `Calendar.DateTime`.

The modules follow the source files:

| module | source | what it holds |
|---|---|---|
| `Js`, `Text`, `Seqs` | (the language) | values, `parseFloat`/`Number` on decimal text, `Math.ceil`, string and array built-ins |
| `Calendar` | subscription.js, subscription-analytics.js | civil dates with `setMonth`/`setFullYear` overflow and `new Date(y, m, d)` normalisation |
| `Billing` | budget.js, subscription-analytics.js, search.js | the monthly equivalent shared by the three copies of `getMonthlyAmount`, spending, category totals, the highest category |
| `Budget` | budget.js | percentage used, alerts, progress class, the threshold toggle, saving the budget |
| `Subscriptions` | subscription.js | `SubscriptionManager`: the store, totals by `frequency`, upcoming payments, next billing date, stats |
| `Analytics` | subscription-analytics.js | next payment date, monthly trend, payments due this month, the highest-category share |
| `Notifications` | notifications.js | `NotificationManager`: reminder ids, de-duplication, priorities, overdue reminders, read marks, settings |
| `NotificationsPage` | notifications-page.js | time-ago labels, filters, counts, mark-all-read, delete |
| `Search` | search.js | `performSearch`: the search term and the filters, the price range included |
| `Ajax` | ajax-utils.js | `simulateApiCall` and its four handlers over the subscription list |
| `Auth` | auth.js | register, login, logout, `checkAuth`, `updateUserProfile` over the user store |
| `Validation` | validation.js | the rule table, the field check order, the email, password and name patterns |
| `SubscriptionForm` | subscription-form.js | the all-fields form check, the request payload, add, update and delete |
| `EditSubscription` | edit-subscription.js | loading the form, replacing the record at its index, delete |
| `Settings` | settings.js | user stats, password change, export and import, account deletion |
| `Dashboard` | dashboard.js | days until billing, stats, search, billing notes, service icons, import |
| `Accessibility` | accessibility.js | the keydown key buffer and its shortcuts, `isTyping`, icon descriptions |

The files differ from each other, and the model keeps each difference:
- the status is 'Active' in notifications.js, dashboard.js and settings.js, but 'active' in subscription.js;
- the cycle field is `frequency` in subscription.js and `billingCycle` elsewhere;
- an unknown cycle counts as monthly in `getMonthlyAmount`, but as 0 in `getTotalMonthlySpend`;
- budget.js sums every subscription whatever its status;
- settings.js and dashboard.js add raw amounts without normalising the cycle.

## Model

| member | source | states |
|---|---|---|
| Billing.MonthlyEquivalent | budget.js:105-115 | the monthly figure times the cycle's length in months (12 for 'yearly', 3 for 'quarterly', 1 for any other or missing cycle) gives back the parsed amount; it is a number exactly when the amount parses |
| Billing.PeriodMonths | subscription-analytics.js:138-148 | the divisor is one of 1, 3 or 12, so every copy of getMonthlyAmount divides by a whole number of months |
| Billing.Spending | budget.js:98-102 | the reduce over every record, whatever its status, is a number exactly when every monthly amount is |
| Billing.SpendingAppend | budget.js:98-102 | the spending of two lists joined is the sum of their spendings |
| Billing.SpendingReadsOnlyBilling | budget.js:98-102 | two lists that agree on amount and billing cycle have the same spending, so no status filter takes part |
| Billing.CategoryIndex | budget.js:157 | the slot `totals[sub.category]` reads: -1 only when no entry has that key, otherwise the first entry with it |
| Billing.Accumulate | budget.js:157 | one forEach step keeps the keys distinct and keeps every total numeric when the added amount is |
| Billing.CategoryTotals | budget.js:153-160 | the totals object has each key once, and every total is numeric when every amount is |
| Billing.OfCategoryIsFilter | budget.js:155-158 | the records counted under a key are exactly the order-preserving filter of the list by that key |
| Billing.TotalAfterIncrease | budget.js:157 | raising one entry's total by m raises the sum of all totals by m |
| Billing.TotalAfterAccumulate | budget.js:157 | one accumulation step raises the sum of the totals by exactly the step's amount |
| Billing.CategoryTotalsSumToSpending | budget.js:153-160 | when every amount is numeric, the category totals add up to the current spending |
| Billing.HasKeyAfterAccumulate | budget.js:157 | a step adds its own key and no other |
| Billing.CategoryKeysAreCategories | budget.js:153-160 | the keys of the totals are exactly the categories that occur in the list |
| Billing.KeyTotalAfterAccumulate | budget.js:157 | a step adds its amount under its own key and leaves every other key's total alone |
| Billing.CategoryTotalIsCategorySpending | budget.js:153-160 | the total under a key is the spending of exactly the records of that category, each counted once |
| Billing.CategoryTotalsDropNaN | budget.js:157 | example: `NaN \|\| 0` resets a total, so a NaN amount followed by 5 in one category gives total 5 while the spending is NaN |
| Billing.HighestIndex | subscription-analytics.js:222-223 | the reduce `a[1] > b[1] ? a : b` picks an entry no other entry exceeds, and no later entry ties it |
| Billing.HighestCategory | subscription-analytics.js:222-223 | it throws exactly when there are no categories; otherwise it picks an entry at least as large as every other |
| Billing.HighestCategoryTieGoesLater | subscription-analytics.js:222-223 | example: of two entries with equal totals the later one in the entry list wins |
| Budget.PercentageUsed | budget.js:81 | 0 when the budget is not positive; otherwise the percentage times the budget is 100 times the spending |
| Budget.Fired | budget.js:237-241 | each alert carries the percentage and a threshold it reaches; a NaN percentage fires nothing; the alerts' thresholds, in order, are the stored list filtered by `percentage >= t`: stored order, one alert per reached entry, no de-duplication |
| Budget.CheckBudgetAlerts | budget.js:228-242 | no alert for a budget of 0 or below or for a NaN spending; every alert carries the percentage of the budget used; with a positive budget the alerts name exactly the stored thresholds reached, in stored order, repeats included |
| Budget.FiredIff | budget.js:237-241 | a threshold fires exactly when it is in the list and the percentage reaches it |
| Budget.FiredCount | budget.js:237-241 | as many alerts as stored entries reached, duplicates counted each time: nothing is de-duplicated |
| Budget.FiredMonotone | budget.js:237-241 | a threshold that fires at one percentage fires at every higher one |
| Budget.ProgressClass | budget.js:118-122 | ' danger' exactly at 90 or more, ' warning' exactly from 75 to below 90, '' exactly below 75 |
| Budget.ProgressClassMonotone | budget.js:118-122 | a higher percentage never gets a milder class |
| Budget.BarWidth | budget.js:93 | the width is the percentage capped at 100 |
| Budget.ToggleThreshold | budget.js:50-65 | the stored list after a toggle is ascending and is a permutation of the pushed or spliced list |
| Budget.RemoveAtMultiset | budget.js:59 | splice(index, 1) removes exactly one occurrence of the element at the index |
| Budget.ToggledKeepsSet | budget.js:55-60 | push-if-absent and splice-if-present keep the list duplicate-free, hold the value exactly when the box is checked, and change no other value |
| Budget.RemovedOnlyThat | budget.js:58-59 | removing one entry of a duplicate-free list removes that value and keeps every other |
| Budget.ToggleThresholdKeepsSet | budget.js:50-65 | after a toggle the list is ascending and duplicate-free, holds the value exactly when checked, and keeps every other value's membership |
| Budget.SaveBudgetChanges | budget.js:275-282 | the budget changes only to a parsed number; a number of 0 or more is stored; a NaN or negative input leaves the budget exactly as it was, so a non-negative budget never becomes negative |
| Budget.SaveBudgetIdempotent | budget.js:275-282 | saving the same text a second time changes nothing more |
| Budget.SaveBudgetZeroAndText | budget.js:276-277 | example: '0' is accepted as a budget of 0, and empty text (NaN) changes nothing |
| Calendar.DaysInMonth | subscription.js:138 | every month has 28 to 31 days |
| Calendar.BeforeMonthIndex | subscription-analytics.js:196 | a date not after another is not in a later month |
| Calendar.OrdinalInjective | subscription-analytics.js:196 | distinct dates compare as distinct instants |
| Calendar.MakeDate | subscription-analytics.js:120 | `new Date(y, m, d)` with an out-of-range month or day normalises to a valid date |
| Calendar.AddMonths | subscription.js:138 | setMonth(getMonth() + k) lands in month +k when the day fits, and otherwise spills into the following month by the excess days |
| Calendar.AddYears | subscription.js:141 | setFullYear(+k) keeps month and day, except 29 February in a non-leap target year, which becomes 1 March |
| Calendar.AddMonthsMovesLater | subscription.js:138 | adding one or more months moves the date strictly later by at least that many months |
| Calendar.AddYearsMovesLater | subscription.js:141 | adding one or more years moves the date strictly later by at least twelve months per year |
| Calendar.MonthStepsDrift | subscription-analytics.js:205 | stepping 31 January by one month twice gives 3 April, while two months at once gives 31 March: month steps do not compose |
| Calendar.EndOfMonth | subscription-analytics.js:167 | `new Date(y, m + 1, 0)` is the last day of the current month, at midnight, not before today |
| Calendar.MonthStart | subscription-analytics.js:120 | `new Date(y, m - i, 1)` is the first of the month i months back |
| Subscriptions.AddSubscription | subscription.js:44-56 | exactly one record is appended; it holds every supplied field unchanged plus id, userId, createdAt and status, the defaults apply only to fields not supplied: status 'active', the generated id, the session's userId and the creation time as createdAt |
| Subscriptions.UpdateSubscription | subscription.js:58-70 | null exactly when no record has the id; otherwise the first match becomes old fields, then updates, then updatedAt, and the list keeps its length and every other index |
| Subscriptions.DeleteSubscription | subscription.js:72-79 | false and no change exactly when no record has the id; otherwise only the first match is removed and the rest keep their order |
| Subscriptions.GetSubscription | subscription.js:81-83 | undefined exactly when no record has the id; otherwise the first record with it |
| Subscriptions.GetAfterUpdate | subscription.js:58-83 | after an update that does not touch the id, looking the id up returns the updated record |
| Subscriptions.ActiveSubscriptions | subscription.js:89-91 | keeps exactly the records whose status is 'active' |
| Subscriptions.ActiveIsByStatus | subscription.js:89-95 | getActiveSubscriptions is getSubscriptionsByStatus('active'), in the same order |
| Subscriptions.MonthlyShareAgrees | subscription.js:97-110 | for 'monthly', 'yearly' and 'quarterly' a record contributes what getMonthlyAmount gives for that cycle; any other frequency contributes 0 |
| Subscriptions.SumShares | subscription.js:98-109 | a list of records whose frequencies are all unknown sums to 0 |
| Subscriptions.TotalIgnoresInactive | subscription.js:97-98 | a record that is not 'active' adds nothing to the total |
| Subscriptions.TotalAddsActive | subscription.js:97-109 | an 'active' record adds exactly its monthly share |
| Subscriptions.Candidates | subscription.js:117-128 | the mapped-and-filtered list holds exactly the records billed within the window, each with its ceiling day count |
| Subscriptions.UpcomingPayments | subscription.js:112-130 | the result is sorted by days until billing and is a permutation of the active records inside the window; payments due on the same day keep their order in the list |
| Subscriptions.DaysUntilInWindow | subscription.js:120-123 | inside the window the day count lies between 0 and the window length |
| Subscriptions.UpcomingIff | subscription.js:112-130 | a record is listed exactly when it is active and billed between today and today plus the window |
| Subscriptions.UpcomingDaysBounded | subscription.js:112-130 | every listed day count is between 0 and the window length |
| Subscriptions.CalculateNextBillingDate | subscription.js:132-149 | an unreadable date throws (toISOString of an Invalid Date); an unknown frequency leaves the date unchanged; otherwise the date moves strictly later by one period (+1, +3 or +12 months, spilling at most one month) and is exactly `AddMonths(d, 1)` for 'monthly', `AddMonths(d, 3)` for 'quarterly' and `AddYears(d, 1)` for 'yearly' |
| Subscriptions.SubscriptionStats | subscription.js:151-165 | the counts are those of the active and of all records; monthlySpend is the total monthly spend of the active records; upcomingPaymentsCount is the number of payments due in the next 30 days; nextPaymentDue is null exactly when there are none, the amount then being null too; otherwise no payment is due sooner, and nextPaymentDue and its amount are those of the first candidate, in list order, among those due soonest |
| Subscriptions.SoonestIsFirstCandidate | subscription.js:151-165 | the head of the sorted upcoming list is the first candidate, in list order, with the fewest days until billing |
| Analytics.Step | subscription-analytics.js:197-206 | one loop step moves the date strictly later by at least a month |
| Analytics.NextPayment | subscription-analytics.js:196-207 | the loop ends on a date not before today, and a start date not before today is returned as is |
| Analytics.NextPaymentIsFirstStep | subscription-analytics.js:191-210 | the result is reached from the start date by whole periods, and every earlier step lies before today |
| Analytics.NextPaymentDate | subscription-analytics.js:191-210 | an unreadable start date has no next payment; otherwise the result is not before today, and equals a start date not before today |
| Analytics.MonthlyTrend | subscription-analytics.js:114-135 | six points, oldest first: the j-th is the first of the month 5 - j months back, the last being the current month |
| Analytics.TrendPointIsStartedSpending | subscription-analytics.js:124-130 | a month's total is the sum, in list order from 0, of the monthly amounts of exactly the subscriptions whose start date is on or before the month's first day |
| Analytics.TrendAmountIsStartedSpending | subscription-analytics.js:119-132 | the j-th amount of the trend is the spending of the subscriptions started by the j-th month's first day |
| Analytics.SpendingFilterMonotone | subscription-analytics.js:124-129 | with non-negative amounts, summing over more records never gives less, and never less than 0 |
| Analytics.StartedByLater | subscription-analytics.js:126 | a record started by one month's first is started by every later one |
| Analytics.TrendNondecreasing | subscription-analytics.js:119-132 | with non-negative amounts each month's total is at least the previous month's |
| Analytics.DueList | subscription-analytics.js:168-176 | the mapped and filtered list is never longer than the subscription list |
| Analytics.DueListMembers | subscription-analytics.js:168-176 | an entry is listed exactly when its record is in the list, is due by the end of this month, and carries its next payment date |
| Analytics.UpcomingThisMonth | subscription-analytics.js:168-177 | sorted by next payment, and a permutation of the due list; payments on the same date keep their order in the due list |
| Analytics.UpcomingThisMonthWindow | subscription-analytics.js:166-177 | every listed payment falls between today and the last day of this month, and every due record is listed |
| Analytics.HighestCategoryShare | subscription-analytics.js:218-224 | with non-negative amounts and at least one record, the highest category exists and its total is between 0 and the total spending, so the share is at most 100 % |
| Analytics.HighestIsKeyTotal | subscription-analytics.js:222-223 | the highest entry is the total recorded under its own key |
| Analytics.KeyTotalBounded | subscription-analytics.js:102-111 | with non-negative amounts, any category's total lies between 0 and the total spending |
| Notifications.Post | notifications.js:53-58 | a notification whose id is already logged leaves the log as it was; otherwise it goes in front of the log (unshift) |
| Notifications.PostHasIds | notifications.js:53-74 | after a post the log holds an id exactly when it held it before or the id is the posted one |
| Notifications.PostUnique | notifications.js:53-74 | posting keeps the log's ids distinct |
| Notifications.PostAll | notifications.js:42-44 | a run of posts only adds in front: the old log survives unchanged as the suffix, and at most one entry per notice is added |
| Notifications.PostAllAddsOnlyPosted | notifications.js:42-44 | every entry added by a run of posts is one of the posted notices |
| Notifications.PostAllHasIds | notifications.js:42-44 | after a run of posts the log holds an id exactly when the old log held it or some posted notice carries it |
| Notifications.PostAllUnique | notifications.js:42-58 | a run of posts keeps the log's ids distinct, so a reminder is never sent twice |
| Notifications.PostAllPresent | notifications.js:55-58 | when every notice's id is already logged, the run changes nothing |
| Notifications.PostAllIdempotent | notifications.js:42-58 | repeating the same run of posts changes nothing |
| Notifications.PaymentReminder | notifications.js:52-72 | the id is `reminder_<id>_<billingDate>`; the notice is an unread 'payment_reminder' for that subscription dated now; the priority is 'high' exactly when billing is at most 3 days away, otherwise 'medium' |
| Notifications.PaymentReminders | notifications.js:42-44 | one reminder per candidate, in order |
| Notifications.CheckUpcoming | notifications.js:27-49 | disabled settings change nothing; enabled settings change only lastCheck; the old log survives unchanged as the suffix of the new one |
| Notifications.CheckUpcomingAddsReminders | notifications.js:42-72 | every entry a check adds is an unread payment reminder dated now |
| Notifications.CheckUpcomingCovers | notifications.js:33-44 | when reminders are enabled, every 'Active' subscription billed within daysBefore days has a reminder in the log after the check |
| Notifications.CheckUpcomingOnlyCandidates | notifications.js:33-44 | conversely, every entry a check adds is the reminder of an 'Active' subscription billed within daysBefore days |
| Notifications.CheckUpcomingKeepsIdsUnique | notifications.js:27-58 | a check keeps the log's ids distinct |
| Notifications.CandidatesReadDaysBefore | notifications.js:33-40 | which subscriptions are candidates depends on the settings only through daysBefore |
| Notifications.LastCheckIsSeparate | notifications.js:47 | writing lastCheck leaves enabled and daysBefore unchanged |
| Notifications.CheckUpcomingIdempotent | notifications.js:27-58 | checking twice at the same instant posts nothing the second time |
| Notifications.EnabledCheckIdempotent | notifications.js:27-58 | the same with reminders enabled, where the second check finds every id already logged |
| Notifications.CompositeIdInjective | notifications.js:53 | for ids without '_', equal reminder ids mean equal subscription id and billing date |
| Notifications.SplitAtSeparator | notifications.js:53 | text joined at a separator absent from the left parts splits back uniquely |
| Notifications.CompositeIdsCanCollide | notifications.js:53 | once an id contains '_', two different (id, billingDate) pairs give the same reminder id, so one reminder can suppress the other |
| Notifications.OverdueReminder | notifications.js:257-266 | the id is `overdue_<id>_<billingDate>`, and the notice is an unread, high-priority 'overdue_reminder' for that subscription dated now |
| Notifications.OverdueReminders | notifications.js:241-243 | one overdue notice per candidate, in order |
| Notifications.OverdueRemindersUrgent | notifications.js:257-266 | every overdue notice is unread and high priority |
| Notifications.SendOverdueAsWritten | notifications.js:247-255 | as written, the loop throws exactly when some candidate is not yet logged (the undeclared `today` at line 255), and otherwise leaves the log alone |
| Notifications.CheckOverdue | notifications.js:232-271 | with `today` read as the check's own instant, the old log survives unchanged as the suffix |
| Notifications.PostedUrgent | notifications.js:257-268 | a run of posts of urgent notices adds only urgent notices |
| Notifications.CheckOverdueAddsUrgent | notifications.js:257-268 | every entry an overdue check adds is an unread, high-priority overdue reminder |
| Notifications.CheckOverdueCovers | notifications.js:234-250 | every 'Active' subscription billed before now has an overdue notice in the log afterwards |
| Notifications.CheckOverdueOnlyCandidates | notifications.js:232-244 | conversely, every entry the corrected check adds is the notice of an 'Active' subscription billed before now |
| Notifications.OverdueCandidateNoticed | notifications.js:234-250 | one overdue candidate ends up with its notice logged |
| Notifications.CheckOverdueKeepsIdsUnique | notifications.js:247-268 | an overdue check keeps the log's ids distinct |
| Notifications.OverdueAsWrittenThrows | notifications.js:255 | as written, an overdue candidate with no notice makes the check throw, where the corrected check would add a notice |
| Notifications.OverdueAsWrittenExample | notifications.js:232-255 | one 'Active' subscription billed a day ago, with an empty log: the code as written throws, the corrected check posts one high-priority notice |
| Notifications.MarkAsRead | notifications.js:201-207 | the log keeps its length; an unknown id changes nothing; otherwise only the first entry with the id changes, and only by becoming read |
| Notifications.ClearAllNotifications | notifications.js:210-213 | the log becomes empty and the settings stay |
| Notifications.UpdateReminderSettings | notifications.js:216-219 | the spread merge: the keys of both, the new value wherever the update gives one, the old value elsewhere; the log stays |
| Notifications.DisabledCheckIsNoop | notifications.js:28 | after settings that set enabled to false, a check changes nothing, lastCheck included |
| Notifications.GetNotifications | notifications.js:196-198 | the in-place sort keeps the same notices, newest first, and touches nothing else; notices with the same timestamp keep their order in the log |
| Notifications.GetNotificationsIdempotent | notifications.js:196-198 | sorting an already sorted log changes nothing |
| NotificationsPage.TimeAgo | notifications-page.js:164-182 | with whole seconds floored: 'Just now' exactly below 60, minutes exactly below 3600, hours exactly below 86400, days exactly below 2592000, the locale date from there on; every count is at least 1 |
| NotificationsPage.TimeAgoCountsWholeUnits | notifications-page.js:171-178 | the count is the number of whole units elapsed: count units fit in the elapsed seconds and count + 1 do not |
| NotificationsPage.PluralIffNotOne | notifications-page.js:172-178 | the label ends in 's ago' exactly when the count is not 1 |
| NotificationsPage.TimeAgoMonotone | notifications-page.js:164-182 | an older date never gets a finer label than a newer one |
| NotificationsPage.FilterNotifications | notifications-page.js:105-122 | 'unread' keeps exactly the unread notices, the two reminder types keep exactly their own type, and any other value keeps the whole list |
| NotificationsPage.FilterNotificationsAppend | notifications-page.js:105-122 | on a concatenation the filter works on each part and keeps them in order, so order and duplicates are kept |
| NotificationsPage.FilterNotificationsOne | notifications-page.js:105-122 | one entry stays exactly when the filter shows it: unread for 'unread', its own type for the two reminder types, always otherwise |
| NotificationsPage.NotificationStats | notifications-page.js:54-61 | total is the length; unread is the number of unread notices and high the number whose priority is 'high'; unread is 0 exactly when every notice is read |
| NotificationsPage.UnreadCountIsFilterLength | notifications-page.js:56 | the unread count equals the length of the 'unread' filter |
| NotificationsPage.AllRead | notifications-page.js:73-75 | every notice becomes read and nothing else about it changes |
| NotificationsPage.MarkAllAsRead | notifications-page.js:71-80 | the log is the newest-first list with every entry read and nothing else about any entry changed; the unread count becomes 0, and the settings stay |
| NotificationsPage.AllReadKeepsHigh | notifications-page.js:71-80 | marking all read keeps the high-priority count |
| NotificationsPage.DeleteNotification | notifications-page.js:82-94 | the list is sorted first; an unknown id leaves the sorted list; a known id removes exactly the first sorted entry with that id, the rest keeping their order; nothing new appears |
| NotificationsPage.DeleteRemovesOnlyThatId | notifications-page.js:82-94 | with distinct ids, the id is gone after the delete and every other notice is kept |
| NotificationsPage.RemoveUniqueId | notifications-page.js:87 | splicing out one entry of a log with distinct ids removes its id and keeps every entry with another id |
| Search.LowerField | search.js:75-77 | `x.toLowerCase()` succeeds exactly on a string field and gives its lower-case form (Basic Latin and Latin-1 capitals); anything else throws |
| Search.MatchesSearch | search.js:74-77 | an empty term matches everything; otherwise, when nothing throws, the result is true exactly when the lower-cased name, category or notes contain the term |
| Search.MatchesSearchTotal | search.js:74-77 | string name and category and string-or-missing notes never throw |
| Search.FoundByOwnName | search.js:68-75 | a subscription is found by its own name typed in any mix of cases |
| Search.AccentedCapitalFound | search.js:68-75 | a name starting with the Latin-1 capital 'É' is found by the term 'é' |
| Search.PriceBounds | search.js:90 | `value.split('-').map(Number)` gives a maximum exactly when the range holds a '-' |
| Search.PassesFilter | search.js:80-95 | an empty, false or 'all' value passes; an unknown key passes; category and billingCycle compare strictly; only a non-string priceRange value throws; only the three known keys can reject |
| Search.PriceRangeOfDigits | search.js:88-91 | for a 'lo-hi' range of digits, a subscription passes exactly when its monthly amount is a number of at least lo and, unless hi is 0, at most hi |
| Search.MatchesFilters | search.js:80-95 | every() passes exactly when each filter passes |
| Search.PerformSearch | search.js:67-98 | throws exactly when some record's check throws; otherwise keeps exactly the records matching the lower-cased term and every filter, in their stored order |
| Search.EmptySearchShowsAll | search.js:67-98 | an empty term with no filters lists every subscription |
| Search.MoreFiltersNarrow | search.js:80-97 | adding a filter never adds a result |
| Ajax.HandleGet | ajax-utils.js:50-59 | a path with '/subscriptions/' returns the first record whose id is the last path segment, and throws 'Subscription not found' exactly when none has it; any other path returns the whole list; the store never changes |
| Ajax.HandlePost | ajax-utils.js:61-70 | appends one record: the data's fields with `id` overwritten by the clock's decimal text |
| Ajax.HandlePut | ajax-utils.js:72-81 | throws 'Subscription not found' exactly when no record has the path's id; otherwise the first match is replaced, not merged, by the data plus that id |
| Ajax.HandleDelete | ajax-utils.js:83-89 | always reports success; afterwards no record has the id, exactly the records with another id stay, and an absent id changes nothing |
| Ajax.HandleDeleteAppend | ajax-utils.js:83-89 | on a concatenation the delete works on each part and keeps them in order |
| Ajax.HandleDeleteOne | ajax-utils.js:83-89 | a single record is dropped exactly when it carries the path id; with the concatenation law this fixes order and multiplicity of the kept records |
| Ajax.SimulateApiCall | ajax-utils.js:34-48 | an unknown verb throws 'Invalid method'; GET and PUT keep the count, POST adds one, DELETE never adds; the only errors are the two messages |
| Ajax.Dispatch | ajax-utils.js:36-44 | each of the four verbs goes to its own handler |
| Ajax.RecordPathAddressesId | ajax-utils.js:52-53 | a record path `/subscriptions/<id>` with no '/' in the id is recognised, and its last segment is the id |
| Ajax.PostThenGet | ajax-utils.js:50-70 | a posted record can be fetched back by its new id, provided that id was free |
| Ajax.PutThenGet | ajax-utils.js:50-81 | after a successful put, a fetch by the id returns the data plus the id |
| Ajax.DeleteThenGet | ajax-utils.js:50-89 | after a delete, a fetch by the id throws 'Subscription not found' |
| Auth.NewUser | auth.js:50-57 | the stored user has exactly id, names, email, password and createdAt; the id is the clock's millisecond count; email and password are stored as typed |
| Auth.Register | auth.js:19-64 | an invalid form changes nothing; mismatched passwords and a taken email are refused with their messages and change nothing; registration succeeds exactly when the form is valid, the passwords are strictly equal and no user has the email, and then the new user is appended and logged in |
| Auth.Login | auth.js:75-98 | only a successful login changes the state; an invalid form is reported as such; an unknown email is refused with 'No account found with this email address' |
| Auth.LoginFirstMatch | auth.js:88-102 | the first user with the email decides: a strictly equal password logs that user in, any other is refused with 'Incorrect password' and changes nothing |
| Auth.LoginAccepts | auth.js:88-102 | a successful login logs in a stored user whose email and password both match |
| Auth.ClearCurrentUser | auth.js:13-16 | nobody is logged in afterwards and the user list is unchanged |
| Auth.CheckAuth | auth.js:123-129 | the check fails exactly when nobody is logged in and the path contains 'dashboard.html' |
| Auth.UpdateUserProfile | auth.js:169-181 | false and no change when nobody is logged in or the current id is not stored; otherwise the first user with that id gets the update merged over its fields, and that merged user becomes current |
| Auth.RegisterKeepsEmailsUnique | auth.js:43-59 | registration never stores a second user with the same email |
| Auth.HandlersKeepCurrentStored | auth.js:13-181 | register, login, logout and profile update all keep the logged-in user among the stored users |
| Auth.LoginKeepsCurrentStored | auth.js:88-102 | login makes current only a stored user |
| Auth.UpdateKeepsCurrentStored | auth.js:172-175 | the updated current user is the one stored at its index |
| Auth.RegisterThenLogin | auth.js:19-102 | after registering with a fresh email, logging in with the same email and password succeeds and changes nothing further |
| Auth.UpdateTwice | auth.js:169-181 | two profile updates in a row, the first not touching id, equal one update with both merged |
| Auth.UpdateFindsSamePosition | auth.js:172-175 | after an update that leaves the id alone, the current user is found again at the same index |
| Auth.CurrentFoundById | auth.js:172 | with distinct ids, the lookup by the current id finds exactly the stored current user |
| Validation.EmailRunOfSlice | validation.js:5 | a stretch of a whitespace-free text without '@' is one run of `[^\s@]+` |
| Validation.EmailCheckSound | validation.js:5 | the scanning check accepts only texts of the form run '@' run '.' run |
| Validation.EmailCheckFromChars | validation.js:5 | a whitespace-free text with one '@', and a '.' at least two characters after it and before the last, passes the check |
| Validation.EmailCheckComplete | validation.js:5 | every text of the form run '@' run '.' run passes the check |
| Validation.EmailCheckMatchesRegex | validation.js:5 | the check accepts exactly the texts `/^[^\s@]+@[^\s@]+\.[^\s@]+$/` matches |
| Validation.PasswordPatternTest | validation.js:11 | the loop answers exactly the password pattern: eight or more characters from the allowed set, with a lower-case letter, an upper-case letter, a digit and one of '@$!%*?&' |
| Validation.PasswordExamples | validation.js:11 | 'Passw0rd!' passes; a password without a special character, with a space, or shorter than eight fails |
| Validation.ValidateField | validation.js:53-92 | a field without rules is valid; otherwise the first failing check decides, in order: required (blank after trim), minimum length, pattern, match; only the match check can throw, exactly when the named input is missing; the field is valid exactly when no check fails, and then the message is empty |
| Validation.ValidateAll | validation.js:110-114 | every input is checked, none skipped: the results line up with the inputs, and the run throws exactly when some check throws |
| Validation.ValidateForm | validation.js:108-116 | the form is valid exactly when every input is valid, and every input is checked even after one fails |
| Validation.EmailFieldIff | validation.js:3-7 | on the register form the email field never throws, and is valid exactly when the text matches the email pattern |
| Validation.PasswordFieldIff | validation.js:8-13 | on the login form the password field never throws, and is valid exactly when the text matches the password pattern |
| Validation.FieldWithoutMatch | validation.js:63-78 | a field whose rules name no match field never throws, and is valid exactly when the required, length and pattern checks pass |
| Validation.PasswordRulesIff | validation.js:8-13 | for the password rules, required and minimum length add nothing to the pattern |
| Validation.FullNameFieldIff | validation.js:14-19 | the full-name field never throws, and is valid exactly when the text is at least two letters or spaces and not all blank |
| Validation.ConfirmPasswordIff | validation.js:20-24 | when the form has a password input, the confirmation never throws, and is valid exactly when it is non-blank and equals that input's value |
| Validation.ShortPasswordReportsLength | validation.js:63-78 | 'abc' is reported as 'Minimum 8 characters required', not as a pattern failure |
| Validation.BlankConfirmationReportsRequired | validation.js:63-66 | a blank confirmation is reported as required even when it equals a blank password |
| Validation.LoginIgnoresOtherInputs | validation.js:162-166 | the login form's table has only email and password, so any other input is valid |
| SubscriptionForm.Validate | subscription-form.js:3-44 | the form is valid exactly when the name is not blank, the amount passes `!value \|\| value <= 0`, and cycle, start date and category are non-empty; each field has a message exactly when its own check fails |
| SubscriptionForm.ValidIffNoMessages | subscription-form.js:3-44 | the form is valid exactly when no message is shown |
| SubscriptionForm.DigitAmount | subscription-form.js:17 | an amount written in digits passes exactly when its value is above 0 |
| SubscriptionForm.ZeroAmountRefused | subscription-form.js:17 | '0' is refused |
| SubscriptionForm.BlankAmountRefused | subscription-form.js:17 | an empty or all-whitespace amount is refused, since it converts to 0 |
| SubscriptionForm.NonNumericAmountAccepted | subscription-form.js:17 | 'abc' passes: NaN <= 0 is false |
| SubscriptionForm.SpacesOnlyNameRefused | subscription-form.js:10 | a name of spaces only makes the form invalid |
| SubscriptionForm.Payload | subscription-form.js:66-73 | the request body has exactly the six form fields, each as typed, the amount converted by parseFloat |
| SubscriptionForm.ValidDigitAmountIsPositive | subscription-form.js:17-68 | a valid form with a digit amount sends that amount's value, which is above 0 |
| SubscriptionForm.AddSubscription | subscription-form.js:53-75 | an invalid form changes nothing; a valid one appends the payload with the clock's id |
| SubscriptionForm.PutRequest | subscription-form.js:109 | the PUT keeps the count; an unknown id changes nothing; a known id has its record replaced by the data plus the id |
| SubscriptionForm.UpdateSubscription | subscription-form.js:86-109 | an invalid form or an unknown id changes nothing; otherwise the record with the id is replaced by the payload plus the id |
| SubscriptionForm.DeleteSubscription | subscription-form.js:120-130 | the store after the DELETE request on the record path; afterwards no record has the id, and exactly the records with another id stay |
| SubscriptionForm.DeleteSubscriptionAppend | subscription-form.js:120-130 | the remaining records keep their order: on a concatenation the delete works on each part |
| SubscriptionForm.DeleteSubscriptionOne | subscription-form.js:120-130 | one record stays exactly when it does not carry the id named by the path, which is the id itself when it has no '/' |
| SubscriptionForm.UpdateThenGet | subscription-form.js:86-109 | after an update, fetching the id returns the new payload with the id |
| EditSubscription.LoadSubscriptionData | edit-subscription.js:32-49 | nothing to load exactly when no record has the id; otherwise the form shows the first such record's name, amount, billing cycle, start date and category as stored, with `notes \|\| ''` turning a missing or empty note into '' |
| EditSubscription.WithId | edit-subscription.js:69-77 | the record gains the id and keeps every other field |
| EditSubscription.EditedRecord | edit-subscription.js:69-77 | the rebuilt record has exactly the form's six fields plus the id, and no field of the old record survives |
| EditSubscription.PayloadHasNoId | edit-subscription.js:71-76 | the form fields never include an id, so the id is the page's own |
| EditSubscription.ReplaceFirst | edit-subscription.js:61-79 | the count stays; an unknown id changes nothing; otherwise exactly the first record with the id is replaced |
| EditSubscription.HandleEditSubmission | edit-subscription.js:51-80 | an invalid form or an unknown id changes nothing; otherwise the first record with the id is replaced by the rebuilt record |
| EditSubscription.HandleDelete | edit-subscription.js:86-95 | afterwards no record has the id, exactly the records with another id stay, and an absent id changes nothing |
| EditSubscription.HandleDeleteAppend | edit-subscription.js:86-95 | the rest keep their order: on a concatenation the delete works on each part |
| EditSubscription.HandleDeleteOne | edit-subscription.js:86-95 | a single record is dropped exactly when it carries the id |
| EditSubscription.EditThenLoad | edit-subscription.js:32-80 | after an edit, loading the id shows the submitted name, amount, category and notes |
| EditSubscription.ReplaceThenFind | edit-subscription.js:61-79 | after a replacement by a record with the same id, findIndex finds the new record where the old one was |
| EditSubscription.DeleteThenLoad | edit-subscription.js:32-95 | after a delete there is nothing to load for the id |
| Settings.ActiveCostAppend | settings.js:236-238 | the cost of two lists joined is the sum of their costs |
| Settings.InactiveCostsNothing | settings.js:236-238 | a record not marked 'Active' adds nothing to the cost, wherever it stands |
| Settings.CostIgnoresCycle | settings.js:236-238 | a yearly 'Active' record adds its full amount, not the twelfth that getMonthlyAmount gives elsewhere |
| Settings.GetUserStats | settings.js:225-240 | null exactly when nobody is logged in; otherwise the counts are of all records and of those marked 'Active', the cost sums the amounts of those records, and daysSinceJoined, when the join date reads, is the whole number of days elapsed |
| Settings.PasswordUpdate | settings.js:59-96 | only an accepted change alters the state; the refusals come in the source's order with their messages; the change is accepted exactly when the form is valid, the current password matches, the two new passwords are strictly equal and the profile update succeeds, and it then stores the new password |
| Settings.PasswordChangeTakesEffect | settings.js:84-92 | after a change, the new password logs in and the old one is refused with 'Incorrect password' |
| Settings.ExportData | settings.js:159-165 | the export object carries the subscriptions and the settings as they are |
| Settings.SpreadStringIndices | settings.js:194 | spreading a string puts each character, as a one-character string, under its decimal index |
| Settings.SpreadStringOnlyIndices | settings.js:194 | spreading a string brings no key other than the decimal indices of its characters |
| Settings.MergeSettings | settings.js:194 | the merged settings hold the old keys and the spread keys; a spread key takes the imported value, every other key keeps its old one |
| Settings.StringSettingsSpreadIndices | settings.js:193-194 | a truthy string as userSettings adds each of its characters under its index |
| Settings.ImportData | settings.js:180-204 | an object with an array of subscriptions, or a bare array, is accepted and replaces the subscriptions; settings are spread-merged over the old ones only when present and truthy; any other shape is refused and changes nothing; the logged-in user is never touched |
| Settings.ExportThenImport | settings.js:159-204 | importing a fresh export is accepted and gives back the same state |
| Settings.ImportIdempotent | settings.js:180-204 | importing the same data twice gives the same state as once |
| Settings.DeleteAccount | settings.js:125-147 | nobody is logged in afterwards, the subscriptions are empty and the settings are the defaults; the first user with the current id is removed, and nobody else |
| Settings.DeletedAccountCannotLogIn | settings.js:128-139 | after deleting the account, its email no longer logs in, while every other user stays stored |
| Dashboard.DaysUntilBillingIsCeiling | dashboard.js:139-145 | an unreadable billing date gives no day count (NaN); otherwise the count is the ceiling of the days to the billing instant |
| Dashboard.UpdateStats | dashboard.js:221-231 | the active count is the number of records marked 'Active'; the total sums their amounts; the upcoming count is the number of active records billed within 0 to 7 days, never more than the active count |
| Dashboard.SearchSubscriptions | dashboard.js:112-131 | throws exactly when the term is non-empty and some record has no string name; otherwise keeps exactly the records whose name contains the lower-cased term and whose status matches, in stored order |
| Dashboard.EmptySearchListsAll | dashboard.js:116-128 | an empty term with 'all' lists every record |
| Dashboard.SearchMembers | dashboard.js:112-131 | a record is listed exactly when it is stored and passes both filters |
| Dashboard.BillingNote | dashboard.js:166-177 | 'Overdue by n days' exactly for an active record billed in the past, n being positive; 'n days left' exactly for an active record billed within 0 to 7 days |
| Dashboard.UpcomingCountsDaysLeftNotes | dashboard.js:168-177 | the upcoming count of the stats equals the number of 'days left' notes in the table |
| Dashboard.FirstIcon | dashboard.js:205-218 | the first rule whose words occur in the name decides the icon, and 'credit-card' is returned when none does |
| Dashboard.GetServiceIcon | dashboard.js:205-218 | throws unless the name is a string; otherwise the first matching rule over the lower-cased name gives the icon |
| Dashboard.DefaultIconMeansNoMatch | dashboard.js:205-218 | 'credit-card' comes back exactly when no service word occurs in the name |
| Dashboard.ImportData | dashboard.js:258-280 | only a bare array is accepted, and it replaces the list; anything else is refused and changes nothing |
| Dashboard.SettingsExportRefusedHere | dashboard.js:266 | a backup written by the settings page is refused by the dashboard's import while the settings page accepts it |
| Accessibility.CheckNavigation | accessibility.js:51-57 | no sequence ends the buffer: buffer kept, nothing fires; otherwise the first sequence that ends it fires and the buffer is emptied |
| Accessibility.CheckActions | accessibility.js:60-66 | a key equal to an action key fires that action and empties the buffer; any other key leaves both alone |
| Accessibility.NavigationCombos | accessibility.js:10-15 | with the space removed the sequences are 'gh', 'gd', 'gs' and 'gb' |
| Accessibility.ComboLastKeys | accessibility.js:10-15 | every sequence is two keys long, and the last keys h, d, s, b are distinct |
| Accessibility.ActionKeys | accessibility.js:16-20 | the action keys are 'n', '/' and 'f' |
| Accessibility.TablesWellFormed | accessibility.js:10-20 | the page's tables have non-empty sequences with distinct last keys, and distinct action keys |
| Accessibility.EndsWithLast | accessibility.js:52 | a buffer ending in a sequence ends in that sequence's last key |
| Accessibility.AtMostOneCombo | accessibility.js:51-57 | with distinct last keys, no buffer ends in two sequences |
| Accessibility.NoComboEndsIn | accessibility.js:52 | when the buffer's last key is no sequence's last key (or the buffer is too short), no sequence fires |
| Accessibility.NavigationFiresMatch | accessibility.js:51-57 | any sequence the buffer ends in is the one that fires |
| Accessibility.Press | accessibility.js:46-66 | one key: at most one shortcut fires; a firing empties the buffer; the sequence the buffer ends in and the action with that key each fire; nothing fires exactly when neither exists, and then the key stays in the buffer |
| Accessibility.KeyDown | accessibility.js:33-67 | typing targets are ignored; a general key fires its action alone; any other key restarts the one-second timer, then behaves as Press |
| Accessibility.KeyDownKeepsNoPending | accessibility.js:33-67 | a completed navigation sequence never stays in the buffer: after every keydown the buffer ends in no sequence, given that it ended in none before |
| Accessibility.PressG | accessibility.js:46-48 | 'g' fires nothing and waits for the next key |
| Accessibility.PressHAfterG | accessibility.js:46-57 | 'h' within the second after 'g' goes to the home page and empties the buffer |
| Accessibility.GoThenHome | accessibility.js:33-57 | 'g' then 'h' within a second goes home |
| Accessibility.PauseForgetsKeys | accessibility.js:48 | 'g', a pause of a second or more, then 'h' goes nowhere: the timer emptied the buffer |
| Accessibility.PressHAfterPause | accessibility.js:46-48 | after the timer has run out, 'h' starts a new buffer and fires nothing |
| Accessibility.TypingIgnored | accessibility.js:35 | keys in an INPUT, a TEXTAREA or editable content do nothing |
| Accessibility.FirstLabel | accessibility.js:192-195 | the first entry contained in the class decides the label, and 'Button' is returned when none is |
| Accessibility.GetIconDescription | accessibility.js:181-196 | 'Button' exactly when no icon name occurs in the class; otherwise the first icon name, in declaration order, gives the label |
| Accessibility.FirstIncluded | accessibility.js:192-193 | when some icon name occurs, a first one exists |
| Accessibility.IncludesPrefix | accessibility.js:193 | a text that contains a name contains every prefix of it |
| Accessibility.LabelsAreNotDefault | accessibility.js:182-190 | no icon's label is 'Button', so 'Button' means no icon matched |
| Accessibility.IconsAreFontAwesome | accessibility.js:182-190 | every icon name starts with 'fa-' |
| Accessibility.NoPrefixNoMatch | accessibility.js:192-193 | a text without the common prefix contains none of the names |
| Accessibility.NoFontAwesomeIsButton | accessibility.js:181-196 | a class without 'fa-' is labelled 'Button' |
| Accessibility.EditBeforeTrash | accessibility.js:182-193 | a class with 'fa-edit' and without 'fa-plus' is labelled 'Edit', even if it also names 'fa-trash' |
| Js.CeilDiv | subscription.js:123 | `Math.ceil(x / d)` for a positive divisor: the least whole q with x <= q * d |
| Js.DigitStringParses | ajax-utils.js:65 | the decimal text of a whole number parses back to that number |
| Js.DigitsParse | budget.js:106 | parseFloat and Number read a digit string as its decimal value |
| Js.DigitsNotTrimmed | subscription-form.js:10 | trimming leaves a digit string as it is |
| Js.ScanAllDigits | budget.js:106 | the decimal scan of a digit string consumes all of it |
| Js.CountDigitsAll | budget.js:106 | a digit string is one run of digits |
| Text.TrimStart | validation.js:63 | removes exactly the leading JavaScript whitespace |
| Text.TrimEnd | validation.js:63 | removes exactly the trailing JavaScript whitespace |
| Text.BlankIffAllWhitespace | validation.js:63 | `!value.trim()` holds exactly when every character is whitespace |
| Text.ToLower | search.js:68 | lower-casing maps each character on its own, taking the Basic Latin and Latin-1 capitals to their small letters, so it keeps the length |
| Text.IncludesIffOccurrence | search.js:75 | `includes` holds exactly when the needle starts at some position |
| Text.LastIndexOf | ajax-utils.js:53 | the last position of the character, -1 when absent |
| Text.LastSegment | ajax-utils.js:53 | `split('/').pop()` is a suffix without the separator |
| Text.LastSegmentOfAppended | ajax-utils.js:53 | the last segment of 'prefix/segment' is the segment when it has no '/' |
| Text.Split | search.js:90 | every piece is free of the separator, and there is at least one |
| Text.JoinSplit | search.js:90 | joining the pieces of a split gives back the text |
| Text.SplitWithoutSeparator | search.js:90 | a text without the separator splits into itself |
| Text.SplitAfterPiece | search.js:90 | a split proceeds piece by piece |
| Text.SplitJoin | search.js:90 | splitting joined separator-free pieces gives back the pieces |
| Text.NatToString | ajax-utils.js:65 | the decimal text of a whole number is non-empty digits without a leading zero |
| Text.NatToStringRoundTrip | ajax-utils.js:65 | reading the decimal text back gives the number |
| Text.NatToStringInjective | ajax-utils.js:65 | different clock readings give different ids |
| Seqs.Filter | search.js:72-98 | keeps exactly the elements that pass, each taken from the list |
| Seqs.FilterConcat | subscription-analytics.js:124-129 | filtering distributes over concatenation |
| Seqs.FilterKeepsAll | search.js:72-98 | a filter every element passes keeps the whole list |
| Seqs.FilterTwice | dashboard.js:119-128 | filtering twice is filtering once by both conditions |
| Seqs.FilterStrongerKeepsFewer | search.js:80-97 | a stronger condition never keeps more |
| Seqs.FindIndex | ajax-utils.js:75 | -1 exactly when nothing passes; otherwise the first index that does |
| Seqs.CountIsIndexCount | notifications-page.js:56-57 | `filter(p).length` is the number of positions whose element passes |
| Seqs.RemoveAt | notifications-page.js:87 | `splice(i, 1)` drops exactly position i and shifts the rest down |
| Seqs.InsertBy | subscription.js:129 | inserting into a sorted list keeps it sorted and adds exactly the element |
| Seqs.SortBy | subscription.js:129 | the comparator sort returns an ascending permutation, and is stable: the elements with any one key come out in their input order |
| Seqs.FilterFirst | subscription.js:129 | the first element a filter keeps is the first element of the list that passes |
| Seqs.InsertByKeepsKeyOrder | subscription.js:129 | inserting into a sorted list puts the element after every element with its key, and reorders no element among those of its key |
| Seqs.InsertByStable | subscription.js:129 | one insertion step keeps the sorted prefix stable with respect to the input read so far |
| Seqs.SortedHeadIsLeast | subscription.js:129 | the head of a sorted permutation has the least key of the list |
| Seqs.StableHeadIsFirstLeast | subscription.js:129 | the head of a stable sorted permutation is the first element of the input with the least key |
| Seqs.SameElements | subscription.js:129 | a permutation has the same members |
| Seqs.SortBySortedIsIdentity | notifications.js:197 | the sort leaves an already sorted list unchanged |

## Left out

- Page rendering: innerHTML templates, modals, Chart.js charts, toasts, `alert`, focus handling, skip links, shortcut hints and the mobile menu. They hold no rule.
- `confirm` dialogs are taken as accepted. That is the only path that changes state.
- Timers are left out:
  - the hourly reminder poll;
  - the simulated email send;
  - the 500 ms API delay.
- The shortcut buffer's one-second timer is a deadline in `Accessibility.Buffer`. A key pressed at or after the deadline finds the buffer already emptied.
- The email queue and the email body HTML. They are string templates with no rule beyond the notice they copy.
- Notification message texts and `toLocaleDateString`, `toLocaleString`, `toFixed` and `Intl` formatting are left out. Only the time-ago label's unit, count and plural are modelled.
- `calculateForecast` draws on `Math.random`.
- JSON parsing and localStorage:
  - every store is a value passed in and returned;
  - a file that fails to parse (the catch in both `importData` functions) is not modelled, because parsing is not.
- Date strings: `new Date(text)` is the `instant` or `civil` argument, so timezones and the accepted formats are not modelled.
- Number parsing: `parseFloat` and `Number` are modelled for decimal text (sign, digits, fraction, surrounding whitespace). `parseFloat` stops before an exponent, so '1e3' reads as 1 where JavaScript gives 1000, and it reads 'Infinity' as NaN. `Number` reads exponent, `Infinity`, hexadecimal and binary forms as NaN where JavaScript gives their values. Hexadecimal text such as '0x10' reads as 0 under `parseFloat`, as in JavaScript.
- Amounts are reals: IEEE rounding is not modelled.
- `ToText` prints whole numbers exactly. A fractional number, such as a fractional id inside a reminder id, is printed as its whole part plus a marker, because the shortest round-trip formatting is not modelled.
- The global `validateForm(formId)` that auth.js and settings.js call is not part of the source files modelled, so its verdict is the `formValid` argument.
- The terms checkbox value in registration is read but unused by the code, and so is `rememberMe`.
- settings.js `handleProfileUpdate` and `handleNotificationUpdate` are form handlers outside the modelled operations. The first only passes three form fields to `updateUserProfile`, which is modelled.
- dashboard.js `addSampleData` and `exportData` are left out. The first adds fixed records. The second serialises the list, which in a value model is the list itself.
- `getAllSubscriptions` returns a copy of the list. In a value model that is the list.
- `getEmailQueue` returns the queue, which is left out.
- Passwords are stored and compared as plain text, and the model states the comparison rule only, no security property.
- Auth.Register: a user id is the clock's millisecond count. The model does not show that ids stay distinct, because two registrations in the same millisecond would share one.
- Auth.Login: its own contract states the state-keeping, the invalid-form and the unknown-email cases. The password check and the success case are stated by `Auth.LoginFirstMatch` and `Auth.LoginAccepts`.
- SubscriptionForm.Validate follows the code, not the intent:
  - `!amount.value || amount.value <= 0` lets non-numeric text through, because NaN <= 0 is false;
  - `SubscriptionForm.NonNumericAmountAccepted` shows it;
  - in the page the input's number type keeps such text out, so the model does not report it as a fault.
- Accessibility.KeyDown: JavaScript objects also inherit prototype keys such as 'constructor', which `this.shortcuts.general[key]` would find. `General` holds only the two declared keys.
- Billing.CategoryIndex: `totals[key]` on a JavaScript object also finds inherited properties such as 'constructor' or 'toString'. The model looks at own entries only, so a category named after an `Object.prototype` property is treated like any other name.
- Billing.Accumulate: for a category named after an inherited property, `(totals[key] || 0) + amount` would start from that function and give a string, and `totals['__proto__'] = …` would set the prototype instead of adding an own key. The model adds such a category like any other.
- Billing.CategoryTotals: the entry list is in insertion order. That is the order `Object.entries` gives only when no category is integer-like ('1', '42'): such keys come first there, in ascending numeric order. The model also leaves out the inherited-key behaviour above, so "every total is numeric" holds only for categories that are not `Object.prototype` property names.
- Billing.CategoryTotalsSumToSpending: holds for categories that are not `Object.prototype` property names. A 'toString' category would turn its total into a string in JavaScript.
- Billing.CategoryKeysAreCategories: holds for categories that are not `Object.prototype` property names. A '__proto__' category never becomes an own key in JavaScript.
- Billing.HighestIndex: "no later entry ties it" is about the entry list in insertion order. With integer-like categories, `Object.entries` orders the entries differently, and a tie may go to another category. For categories "b" and then "1", both 5, JavaScript reports "b" and the model "1".
- Billing.CategoryTotalIsCategorySpending: holds, like the other category lemmas, for categories that are not `Object.prototype` property names.
- Analytics.HighestCategoryShare: rests on the category totals, so it has the same limit on category names and the same tie order as `Billing.HighestCategory`.
- Billing.HighestCategory: the tie rule follows the model's insertion order, as for `Billing.HighestIndex`.
- Billing.HighestCategoryTieGoesLater: "later" means later in the entry list, which is insertion order. It is not the `Object.entries` order for integer-like categories.
- Text.ToLower: only the Basic Latin and Latin-1 capitals are lower-cased. The rest of Unicode's case mapping is not modelled. That includes Latin Extended, Greek with its final sigma, Cyrillic, and mappings that change the length, such as 'İ' becoming two code units. A search term or name outside those blocks may match in JavaScript and not in the model, or the other way round.
- Search.LowerField: lower-cases as `Text.ToLower` does, so only Basic Latin and Latin-1 capitals.
- Search.MatchesSearch: the term and fields are compared after `Text.ToLower`, so letters outside Basic Latin and Latin-1 are not folded.
- Search.PerformSearch: the lower-cased term is `Text.ToLower`'s, with the same limit.
- Dashboard.SearchSubscriptions: the term and the names are lower-cased by `Text.ToLower`, with the same limit.
- Dashboard.GetServiceIcon: the name is lower-cased by `Text.ToLower`, with the same limit. The service words it looks for are all ASCII. So this matters only for a name holding a capital that JavaScript folds onto an ASCII letter, such as the Kelvin sign, which becomes 'k'.
- Settings.MergeSettings: a truthy array of records as userSettings would add index keys holding objects. A settings value cannot hold an object, so the model adds nothing for it. Strings, objects, numbers and booleans are spread as JavaScript spreads them.
- Settings.ImportData: inherits that limit of `Settings.MergeSettings` for an array of records as userSettings.
- Validation.ValidateField: a string is a sequence of Unicode scalar values, while JavaScript's `.length` counts UTF-16 code units. So the minimum-length check counts a character outside the Basic Multilingual Plane once where JavaScript counts it twice. "😀😀😀😀" has length 4 in the model and 8 in JavaScript, so against a minimum of 5 the model reports the length message and JavaScript passes it. Inside the Basic Multilingual Plane the two counts agree.
- Validation.FieldWithoutMatch: its length check counts Unicode scalar values, as in `Validation.ValidateField`.
- Settings.SpreadStringIndices: spreading a string in JavaScript gives one key per UTF-16 code unit. `{...'😀'}` has keys '0' and '1', each holding half of a surrogate pair. The model gives one key per Unicode scalar value, so it matches JavaScript only for text inside the Basic Multilingual Plane.
- Settings.SpreadStringOnlyIndices: the indices are those of Unicode scalar values, with the same limit as `Settings.SpreadStringIndices`.
- Settings.StringSettingsSpreadIndices: the added keys are the indices of Unicode scalar values, with the same limit as `Settings.SpreadStringIndices`.

## Findings

| source | as written | input that shows it | evidently intended | confidence | as-written member | corrected member |
|---|---|---|---|---|---|---|
| notifications.js:255 | `sendOverdueReminder` computes the days overdue from `today`, which is declared only inside `checkOverduePayments`, so the first overdue subscription without a notice raises a ReferenceError; no overdue notice is ever posted unless a global `today` happens to exist | one subscription with status 'Active', billed one day before now, and an empty log | `today` is the check's own instant, and every overdue subscription gets one unread, high-priority notice | not executed | Notifications.CheckOverdueAsWritten, Notifications.OverdueAsWrittenThrows, Notifications.OverdueAsWrittenExample | Notifications.CheckOverdue |
