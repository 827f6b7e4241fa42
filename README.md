# Lunch club orders: a Dafny model

This project models the core of a small lunch-club ordering app. The app is
written in TypeScript with React and keeps its data in two places:

- **The hosted store.** It holds orders, dessert stock and menu options. The
  `useSupabaseData` hooks fetch and update it, and the orders page, the print
  page, the attendance page, the dessert stock page and the edit-order dialog
  read it.
- **Browser storage.** An older flavour of the app keeps data here: the order
  form, the admin tools, the menu editor, the order helpers and the admin
  sign-in flag.

Each component becomes a Dafny module. Code that only computes a value from
props becomes functions with lemmas about them. Code that keeps state becomes
a `class` whose methods change its fields. That covers each hook, the
dialogs, the stock page, the menu editor, the admin tools, the order form and
the sign-in flag.

Shared pieces:

- `Seqs`: sequence filtering, sums, de-duplication and a stable insertion
  sort.
- `Text`: `trim`, `toLowerCase`, `includes`, the default string order,
  `parseInt` and the reading and printing of money amounts.
- `Aggregation`: the "reduce into a dictionary of buckets" grouping that
  several components use.

Money is held in whole pence.

## Model

| member | source | states |
|---|---|---|
| Records.WeekOrders | src/components/OrdersList.tsx:30 | The week's orders are exactly the orders whose week matches, kept in list order and never more than all the orders |
| Records.OtherWeeks | src/components/OrdersList.tsx:30 | Exactly the orders of every other week |
| Records.WeekOrdersAppend | src/components/OrdersList.tsx:30 | Filtering by week commutes with concatenation, so the relative order of the week's orders is kept |
| Records.RevenueSnoc | src/components/OrdersList.tsx:38 | An order adds its paid amount to the revenue; an order without one adds nothing |
| Records.RevenueSplitsByWeek | src/components/OrdersList.tsx:38 | The revenue of one week plus that of all other weeks is the revenue of all orders: nothing is counted twice or missed |
| StoreHooks.OrdersHook.constructor | src/hooks/useSupabaseData.ts:44-56 | The hook starts with the fetched orders |
| StoreHooks.OrdersHook.AddOrder | src/hooks/useSupabaseData.ts:69-90 | A rejected insert leaves the list and reports failure; an accepted insert returns the stored row with the store's id and creation time and puts it at the front of the list |
| StoreHooks.MergeById | src/hooks/useSupabaseData.ts:133 | Merging a partial update keeps the list's length |
| StoreHooks.MergeByIdEffect | src/hooks/useSupabaseData.ts:133 | Only items with that id change; they keep their id, the patched fields take the new values and the fields left out of the patch keep theirs |
| StoreHooks.MergeEmptyPatch | src/hooks/useSupabaseData.ts:133 | An update that names no field changes nothing |
| StoreHooks.RemoveById | src/hooks/useSupabaseData.ts:177 | After a delete, exactly the items with another id remain |
| StoreHooks.RemoveByIdAppend | src/hooks/useSupabaseData.ts:177 | Deleting keeps the survivors in their order |
| StoreHooks.DessertInventoryHook.constructor | src/hooks/useSupabaseData.ts:99-111 | The hook starts with the fetched desserts |
| StoreHooks.DessertInventoryHook.UpdateDessert | src/hooks/useSupabaseData.ts:124-143 | Reports the store's answer; the update is merged into the list only when the store accepted it |
| StoreHooks.DessertInventoryHook.AddDessert | src/hooks/useSupabaseData.ts:145-166 | A rejected insert changes nothing; an accepted one returns the row with its new id and appends it to the end of the list |
| StoreHooks.DessertInventoryHook.DeleteDessert | src/hooks/useSupabaseData.ts:168-187 | Reports the store's answer; only an accepted delete removes the items with that id |
| StoreHooks.MaxSortOrder | src/hooks/useSupabaseData.ts:230 | The result is zero or more, at least every option's position, and either zero or the position of some option: the maximum with 0 as floor |
| StoreHooks.RemoveOptionById | src/hooks/useSupabaseData.ts:261 | After a delete, exactly the options with another id remain |
| StoreHooks.NewOptionSortsLast | src/hooks/useSupabaseData.ts:228-239 | A new option's position is at least one and above every existing option's, so distinct positions stay distinct |
| StoreHooks.OptionsHook.constructor | src/hooks/useSupabaseData.ts:203-215 | The hook starts with the fetched options |
| StoreHooks.OptionsHook.AddOption | src/hooks/useSupabaseData.ts:228-250 | A rejected insert changes nothing; an accepted one appends the option at one past the highest position |
| StoreHooks.OptionsHook.DeleteOption | src/hooks/useSupabaseData.ts:252-271 | Reports the store's answer; only an accepted delete removes the options with that id |
| Aggregation.KeysOf | src/components/AttendanceSummary.tsx:40-56 | The dictionary keys have no repeats, are exactly the keys of the list, and every item's key is among them |
| Aggregation.IndexOfKey | src/components/AttendanceSummary.tsx:42 | The lookup `acc[k]` finds the first bucket with key `k`, or reports none when no bucket has it |
| Aggregation.Accumulate | src/components/AdminControls.tsx:33-45 | One step of the `reduce`: create the bucket if missing, push the order and add its weight |
| Aggregation.GroupBy | src/components/AdminControls.tsx:33-45 | The loop yields one bucket per distinct key, in first-met order, each with its items and their total |
| Aggregation.GroupsAreByKey | src/components/AttendanceSummary.tsx:40-54 | Bucket keys are distinct; a bucket holds exactly the items with its key; its total is the sum of their weights |
| Aggregation.GroupsCover | src/components/AttendanceSummary.tsx:40-54 | Every item has a bucket for its key and no bucket is empty |
| Aggregation.GroupCount | src/components/AdminControls.tsx:52 | There are as many buckets as distinct keys |
| Aggregation.GroupHeadIsFirst | src/components/AttendanceSummary.tsx:42-48 | A bucket's first item is the first item in the list with that key |
| Aggregation.GroupsPartition | src/components/AttendanceSummary.tsx:40-54 | Summing any weight over the buckets gives its sum over the list: each item is counted once |
| Aggregation.GroupSizesAddUp | src/components/AdminControls.tsx:33-45 | The bucket sizes add up to the number of items |
| Seqs.SortBySorted | src/pages/PrintOrders.tsx:13-17 | Sorting by a comparator that is a total preorder on the list gives a sorted permutation of it |
| Text.Trim | src/components/MenuManager.tsx:33 | The trimmed text starts and ends with no white space, and is empty exactly when the text is all white space |
| Text.TrimIdempotent | src/components/MenuManager.tsx:51 | Trimming a trimmed name changes nothing |
| Text.ToLower | src/components/OrdersList.tsx:33 | Lower-casing keeps the length |
| Text.StrLeIsTotalPreorder | src/components/OrdersList.tsx:41 | The default string order of `sort` is total and transitive |
| Text.ParseIntText | src/components/DessertManager.tsx:171 | `parseInt` reads back the decimal text of any integer |
| Text.PencePrintParse | src/components/OrdersList.tsx:146 | Reading back the text an amount is shown as gives that amount |
| Text.TypedPoundsPence | src/components/AdminControls.tsx:20 | Every whole number of pounds, written out, reads as that many pounds |
| Text.TypedAmountPence | src/components/AdminControls.tsx:42 | Pounds, a point and up to two digits read as those pounds and pence; one digit is tenths |
| Text.ExponentPoundsNotRead | src/components/OrdersList.tsx:242 | Pounds with an exponent ("1e3") are not read, rather than read as some other amount |
| Text.ExponentAmountNotRead | src/components/OrdersList.tsx:242 | Pounds and a fraction with an exponent ("1.5e1") are not read either |
| Text.AmountText | src/components/EditOrderForm.tsx:31 | A box shows nothing exactly when there is no amount or it is zero |
| AttendanceSummary.AllWeeksDescending | src/components/AttendanceSummary.tsx:25 | The week picker lists every week with an order, each once, latest first in string order |
| AttendanceSummary.SortedWeeks | src/components/AttendanceSummary.tsx:25 | Sorting the distinct weeks keeps them distinct and complete, in ascending order |
| AttendanceSummary.AllWeeksListsEveryOrder | src/components/AttendanceSummary.tsx:25 | The week of any order is in the picker |
| AttendanceSummary.UniqueCustomers | src/components/AttendanceSummary.tsx:32 | The count is the number of distinct customer names and at most the head count |
| AttendanceSummary.AverageSpend | src/components/AttendanceSummary.tsx:37 | Zero when nobody came, otherwise the amount whose product with the head count is the revenue |
| AttendanceSummary.BuildCustomerSummaries | src/components/AttendanceSummary.tsx:40-56 | The `reduce` builds one row per customer bucket |
| AttendanceSummary.SummarySums | src/components/AttendanceSummary.tsx:49-51 | Row spending and row order counts are the bucket totals and bucket sizes |
| AttendanceSummary.CustomersPartitionWeek | src/components/AttendanceSummary.tsx:40-56 | One row per distinct name, as many as `uniqueCustomers`, names never repeated, each row holding exactly that customer's orders |
| AttendanceSummary.CustomerTotalsAddUp | src/components/AttendanceSummary.tsx:31-54 | Row order counts add up to the head count and row spending to the revenue |
| AttendanceSummary.CustomerTableIsFirstOrders | src/components/AttendanceSummary.tsx:43-48 | A row's table is the table of that customer's first order of the week |
| AttendanceSummary.BuildMealCounts | src/components/AttendanceSummary.tsx:59-62 | The counting `reduce` builds one count per meal |
| AttendanceSummary.CountedIsSumOfTotals | src/components/AttendanceSummary.tsx:59-62 | The listed counts add up to the bucket totals |
| AttendanceSummary.MealCountsAddUp | src/components/AttendanceSummary.tsx:59-62 | Each meal is listed once, with its number of orders, and the counts add up to the head count |
| AttendanceSummary.TopThree | src/components/AttendanceSummary.tsx:64-66 | For any counts: at most three kept, most ordered first, each taken from the list, and none left out beats one kept |
| AttendanceSummary.PopularMealsAreTop | src/components/AttendanceSummary.tsx:64-66 | The popular meals are the top three of the week's meal counts in that same sense |
| OrderUtils.CreateNewOrderCopies | src/utils/orderUtils.ts:36-43 | A new order carries every form field unchanged, the current week and the given time and id |
| OrderUtils.ValidateOrderForm | src/utils/orderUtils.ts:45-55 | A form passes exactly when it has a name and a meal |
| OrderUtils.FirstByName | src/utils/orderUtils.ts:63 | `find` gives the first dessert of that name, or none |
| OrderUtils.CheckDessertStock | src/utils/orderUtils.ts:57-73 | No dessert always passes; otherwise it passes exactly when the first dessert of that name exists and has stock left |
| OrderUtils.CheckRefusesUnknown | src/utils/orderUtils.ts:63-64 | A dessert nobody stocks is refused |
| OrderUtils.UpdateDessertInventory | src/utils/orderUtils.ts:75-86 | No dessert changes nothing; otherwise each dessert of that name loses one unit and all other fields and desserts stay |
| OrderUtils.StockNeverNegativeAfterCheck | src/utils/orderUtils.ts:57-86 | Once the stock check passes, the dessert it looked at is not left with negative stock |
| OrderUtils.UpdateTakesOnePerMatch | src/utils/orderUtils.ts:75-86 | Total stock falls by the number of desserts of that name |
| OrderUtils.CountNamedUnique | src/utils/orderUtils.ts:75-86 | With distinct names, a stocked dessert name occurs once |
| OrderUtils.CountNamedPositive | src/utils/orderUtils.ts:75-86 | A name that is counted occurs in the inventory |
| OrderUtils.UpdateTakesExactlyOne | src/utils/orderUtils.ts:75-86 | With distinct names, ordering a stocked dessert lowers total stock by exactly one |
| OrderUtils.InitialFormRejected | src/utils/orderUtils.ts:88-97 | The initial form never passes validation |
| SubItemsField.Toggle | src/components/order/SubItemsField.tsx:13-19 | Ticking appends the item; unticking removes every copy and keeps the count of every other item |
| SubItemsField.ToggleShows | src/components/order/SubItemsField.tsx:29 | Afterwards the box shows what was clicked |
| SubItemsField.ToggleLeavesOthers | src/components/order/SubItemsField.tsx:29 | Other boxes keep their state |
| SubItemsField.UntickKeepsOrder | src/components/order/SubItemsField.tsx:16 | Unticking keeps the other items in their order |
| SubItemsField.TickThenUntick | src/components/order/SubItemsField.tsx:13-19 | Ticking an unticked item and unticking it again restores the list |
| AdminAuth.AdminAuth.constructor | src/hooks/useAdminAuth.ts:5 | A fresh browser is signed out |
| AdminAuth.AdminAuth.Login | src/hooks/useAdminAuth.ts:7-13 | Success exactly for the admin password, which signs in; any other password leaves the flag as it was |
| AdminAuth.AdminAuth.Logout | src/hooks/useAdminAuth.ts:15 | Signs out |
| AdminAuth.LoginIsIdempotent | src/hooks/useAdminAuth.ts:7-13 | Signing in twice with the right password leaves the admin signed in |
| AdminAuth.WrongPasswordAfterLogout | src/hooks/useAdminAuth.ts:7-15 | A wrong password after signing out leaves the admin signed out |
| MenuManager.AddName | src/components/MenuManager.tsx:32-57 | A blank name is refused; a trimmed name that is listed already is refused; otherwise the trimmed name is appended |
| MenuManager.AddKeepsNamesDistinct | src/components/MenuManager.tsx:42-51 | A list without repeats keeps none, and the added name is non-empty and trimmed |
| MenuManager.AddThenRemove | src/components/MenuManager.tsx:51-60 | Removing a name just added restores the list |
| MenuManager.MenuManager.constructor | src/components/MenuManager.tsx:11-30 | Starts with the default meals and extra items and empty boxes |
| MenuManager.MenuManager.SetNewMeal | src/components/MenuManager.tsx:29 | Typing changes only the new-meal box |
| MenuManager.MenuManager.SetNewSubItem | src/components/MenuManager.tsx:30 | Typing changes only the new-extra box |
| MenuManager.MenuManager.HandleAddMeal | src/components/MenuManager.tsx:32-57 | The outcome follows `AddName`; success stores the longer list and clears the box; a refusal changes nothing |
| MenuManager.MenuManager.HandleRemoveMeal | src/components/MenuManager.tsx:59-65 | Removes every entry equal to the meal and changes nothing else |
| MenuManager.MenuManager.HandleAddSubItem | src/components/MenuManager.tsx:67-92 | The same rules for extra items |
| MenuManager.MenuManager.HandleRemoveSubItem | src/components/MenuManager.tsx:94-100 | Removes every entry equal to the extra item and changes nothing else |
| MenuManager.DefaultsDistinct | src/components/MenuManager.tsx:11-27 | The default lists have no repeats |
| OrderForm.PublicOverrides | src/components/OrderForm.tsx:38-44 | On the public page an order is free, never drawn from the fund and never a volunteer meal; the choices and week are kept |
| OrderForm.AdminAmounts | src/components/OrderForm.tsx:38-44 | For staff a volunteer meal is free and otherwise keeps the typed amount; the flags are kept |
| OrderForm.EmptyFormIncomplete | src/components/OrderForm.tsx:63-71 | The reset form cannot be submitted again |
| OrderForm.OrderForm.constructor | src/components/OrderForm.tsx:18-28 | Starts with the empty form and the stored orders |
| OrderForm.OrderForm.HandleChange | src/components/OrderForm.tsx:32-35 | Changes the form only |
| OrderForm.OrderForm.HandleSubmit | src/components/OrderForm.tsx:37-72 | Adds an order exactly when name and meal are given: the created order is appended and the form reset; otherwise nothing changes |
| AdminControls.LocalWeekOrders | src/components/AdminControls.tsx:19 | Exactly the orders of the current week |
| AdminControls.OtherLocalWeeks | src/components/AdminControls.tsx:23 | Exactly the orders of the other weeks |
| AdminControls.WeekSplitsOrders | src/components/AdminControls.tsx:22-30 | The week's orders and the rest together hold every order as often as the list, and clearing keeps the rest in order |
| AdminControls.LocalRevenueSplits | src/components/AdminControls.tsx:20 | The week's takings plus the other weeks' are the takings of all orders |
| AdminControls.LocalUniqueCustomers | src/components/AdminControls.tsx:52 | The number of distinct customer names |
| AdminControls.SheetForCounts | src/components/AdminControls.tsx:47-55 | The record counts the week's orders and distinct customers, and its attendees' orders and totals add up to the head count and takings |
| AdminControls.SheetForAttendees | src/components/AdminControls.tsx:33-45 | One attendee per name, holding exactly that customer's orders of the week and their takings |
| AdminControls.ResetStock | src/components/AdminControls.tsx:65-70 | Resetting keeps the number of desserts |
| AdminControls.ResetStockRestocks | src/components/AdminControls.tsx:65-70 | Every dessert keeps its name, starting stock and switch, and has its starting stock remaining; resetting again changes nothing |
| AdminControls.ExportOf | src/components/AdminControls.tsx:78-85 | The export holds exactly the week's orders and attendance records, the inventory and the week |
| AdminControls.AdminControls.constructor | src/components/AdminControls.tsx:15-17 | Starts with the stored orders, records and inventory |
| AdminControls.AdminControls.ClearWeekOrders | src/components/AdminControls.tsx:22-30 | Only the current week's orders go |
| AdminControls.AdminControls.GenerateAttendanceSheet | src/components/AdminControls.tsx:32-63 | Appends one record for the week and changes nothing else |
| AdminControls.AdminControls.ResetAllStock | src/components/AdminControls.tsx:65-70 | Resets the inventory and changes nothing else |
| AdminControls.AdminControls.ClearAllData | src/components/AdminControls.tsx:102-109 | Removes all orders and records and resets the inventory |
| OrdersList.FilteredOrders | src/components/OrdersList.tsx:32-36 | Exactly the week's orders that pass the name search and the table menu |
| OrdersList.ContainsEmpty | src/components/OrdersList.tsx:33 | Every name contains the empty search text |
| OrdersList.UnfilteredShowsWeek | src/components/OrdersList.tsx:32-36 | An empty search with all tables shows the whole week |
| OrdersList.FilteredKeepsOrder | src/components/OrdersList.tsx:32-36 | Filtering keeps the page order |
| OrdersList.UniqueTablesSorted | src/components/OrdersList.tsx:41 | The table menu lists exactly the non-empty tables of the week, each once, in ascending string order |
| OrdersList.UniqueTablesHasOrderTable | src/components/OrdersList.tsx:41 | Any table an order gives is in the menu |
| OrdersList.PaymentPatch | src/components/OrdersList.tsx:242 | An empty box saves no amount |
| OrdersList.PaymentRoundTrip | src/components/OrdersList.tsx:146 | Opening the payment dialog and saving keeps the amount, except that zero is cleared |
| OrdersList.PaymentPatchTyped | src/components/OrdersList.tsx:242 | For every whole number of pounds, saving it, or it with a point and up to two digits, stores those pounds and pence ("12.5" stores twelve pounds fifty) |
| OrdersList.PaymentPatchExponent | src/components/OrdersList.tsx:242 | Saving an amount written with an exponent stores no amount rather than a wrong one |
| PrintOrders.Grouped | src/pages/PrintOrders.tsx:11-25 | Filter, sort and the push loop yield the table groups of the sorted week |
| PrintOrders.GroupsHoldWeekOrders | src/pages/PrintOrders.tsx:11-25 | Only this week's orders print; each sits under its own table or "No Table"; no heading repeats; every week order is under one |
| PrintOrders.GroupSizesAreWeekCount | src/pages/PrintOrders.tsx:11-25 | The groups hold as many orders as the week has |
| PrintOrders.KeyRankInfinite | src/pages/PrintOrders.tsx:32-33 | A heading ranks infinite exactly when it is "No Table" |
| PrintOrders.RankLeTotalTransitive | src/pages/PrintOrders.tsx:34 | Without NaN the comparator is total and transitive |
| PrintOrders.RankLeOrdersOn | src/pages/PrintOrders.tsx:31-35 | A rank comparator is a total preorder on lists without NaN ranks |
| PrintOrders.RankSortedAscend | src/pages/PrintOrders.tsx:31-35 | Sorted by rank, with at most one infinite and no NaN: all but the last are finite and finite ranks ascend |
| PrintOrders.KeyLeIsRankLe | src/pages/PrintOrders.tsx:31-35 | The table comparator compares heading ranks |
| PrintOrders.SortedTablesNumericThenNoTable | src/pages/PrintOrders.tsx:31-35 | With numeric or "No Table" headings: each heading once, ascending numerically, "No Table" last |
| PrintOrders.LabelledNonEmpty | src/pages/PrintOrders.tsx:68-70 | A labelled field is never empty |
| PrintOrders.DetailPartsOrder | src/pages/PrintOrders.tsx:66-73 | Details are the non-empty sub-items in order, then the dessert, drink and special request, each only when given |
| DessertManager.StockInputRoundTrip | src/components/DessertManager.tsx:171 | A stock box reads back the number it shows |
| DessertManager.StockInput | src/components/DessertManager.tsx:171 | The number `parseInt` reads from a stock box, or zero when it reads none |
| DessertManager.StockInputNoDigits | src/components/DessertManager.tsx:181 | A stock box with no digit in it (empty, or only a sign) stores zero |
| DessertManager.PatchOf | src/components/DessertManager.tsx:171-202 | Each card control sends exactly its own field: a stock box the number read from its text, the switch its position, and Reset the dessert's starting stock as its remaining stock |
| DessertManager.ResetOneRestocks | src/components/DessertManager.tsx:202 | With unique ids, a dessert's Reset button restocks that dessert only and leaves every other one as it was |
| DessertManager.ResetPrefix | src/components/DessertManager.tsx:57-61 | The first `k` reset updates keep the list's length |
| DessertManager.AcceptedPrefix | src/components/DessertManager.tsx:55-74 | The number of accepted calls: all before it accepted, and the one at it refused |
| DessertManager.ResetPrefixEffect | src/components/DessertManager.tsx:57-61 | With unique ids, the first `k` updates restock exactly the first `k` desserts |
| DessertManager.ResetAllRestocks | src/components/DessertManager.tsx:55-74 | When all calls are accepted every dessert is restocked and nothing else changes |
| DessertManager.DessertManager.constructor | src/components/DessertManager.tsx:15 | The add form starts empty |
| DessertManager.DessertManager.SetNewDessert | src/components/DessertManager.tsx:15 | Typing sets the add form |
| DessertManager.DessertManager.HandleAddDessert | src/components/DessertManager.tsx:25-53 | Both boxes are required; a saved dessert is appended, switched on with all its stock remaining, and the form cleared; a refusal changes nothing |
| DessertManager.DessertManager.HandleCardEdit | src/components/DessertManager.tsx:17-23 | An accepted edit merges the control's field; a refused one changes nothing |
| DessertManager.DessertManager.HandleDeleteDessert | src/components/DessertManager.tsx:76-87 | An accepted delete removes that id; a refused one changes nothing |
| DessertManager.DessertManager.ResetAllStock | src/components/DessertManager.tsx:55-74 | The loop makes accepted updates in order until the first refusal, and reports success exactly when all were accepted |
| DessertManager.AcceptedPrefixStops | src/components/DessertManager.tsx:57-61 | A refusal ends the loop however many calls were left |
| EditOrderForm.Blank | src/components/EditOrderForm.tsx:59-62 | An empty text is sent as null and any other text as itself |
| EditOrderForm.SaveUnchangedKeepsOrder | src/components/EditOrderForm.tsx:23-63 | Saving without edits sends back the order's own values, with empty texts as null |
| EditOrderForm.FormAmountsReadBack | src/components/EditOrderForm.tsx:31-34 | The amounts shown read back as the stored amounts; an empty box means no amount or zero |
| EditOrderForm.FindDessert | src/components/EditOrderForm.tsx:66 | `find` gives the first dessert of that name, or reports none |
| EditOrderForm.AvailableDesserts | src/components/EditOrderForm.tsx:99 | Exactly the desserts that are switched on and in stock |
| EditOrderForm.ActiveNames | src/components/EditOrderForm.tsx:100-101 | Exactly the names of the options switched on |
| EditOrderForm.SameDessertNoStockCall | src/components/EditOrderForm.tsx:65-81 | Keeping the dessert makes no stock call |
| EditOrderForm.SwapMovesOneUnit | src/components/EditOrderForm.tsx:65-81 | With unique ids, swapping listed desserts gives the old one a unit back and takes one from the new; nothing else changes |
| EditOrderForm.StockAfterSave | src/components/EditOrderForm.tsx:65-81 | The stock list after a save keeps its length |
| EditOrderForm.SaveEffectAccepted | src/components/EditOrderForm.tsx:65-86 | With all calls accepted both stock calls apply and the dialog closes; an unchanged dessert leaves stock alone |
| EditOrderForm.EditOrderForm.constructor | src/components/EditOrderForm.tsx:37 | The dialog starts with the form filled from the order |
| EditOrderForm.EditOrderForm.Update | src/components/EditOrderForm.tsx:44-46 | Merges the order-form fields into the form |
| EditOrderForm.EditOrderForm.ReturnStock | src/components/EditOrderForm.tsx:65-72 | Gives the old dessert a unit back when it changed and is listed, if the store accepts |
| EditOrderForm.EditOrderForm.TakeStock | src/components/EditOrderForm.tsx:74-81 | Takes a unit from the new dessert when it changed and is listed, if the store accepts |
| EditOrderForm.EditOrderForm.HandleSubmit | src/components/EditOrderForm.tsx:48-97 | An invalid form sends nothing; a refused update moves no stock; otherwise the stock calls go in order, a refusal stops them, and the dialog closes only when all succeed |

## Left out

- The hosted store, the browser storage and the network are not modelled. Each store call is a parameter holding the store's answer: accepted or refused, plus the values the store assigned on insert. Toasts, console output and the loading flags are left out.
- Clock readings (`timestamp`, `Date.now()` ids, `exportDate`) and the ids and creation times the store assigns are parameters.
- Amounts the app holds as floating-point numbers are whole pence here.
- Text.ParsePence: reads an optional sign, digits, and an optional point and digits, and gives no amount where `parseFloat` gives `NaN`. It also gives no amount for three text shapes `parseFloat` reads as a number: a fraction of a penny (a non-zero third decimal place), an exponent ("1e3", "1.5e1") and "Infinity". Such text saves no amount in the payment dialog (`OrdersList.PaymentPatch`) and adds 0 to the revenue totals, where the app would use the number `parseFloat` reads. Exponent amounts and `Infinity` are not modelled.
- `Text.ParseInt` reads decimal text only; `parseInt`'s other radices and hexadecimal prefixes are not modelled.
- `Text.ToLower` lower-cases ASCII letters only; locale-specific and other Unicode case mappings are left out.
- JavaScript object key order puts integer-like keys first. `Aggregation` keeps first-appearance order for every key, which differs when customer names, meals or table numbers look like array indices.
- PrintOrders.SortedTablesNumericThenNoTable: requires every heading to be a number or "No Table". For other headings the comparator gives `NaN`, is not consistent, and the order the engine produces is unspecified.
- PrintOrders.Grouped: the in-place `sort` of the week's orders is modelled on values by a stable insertion sort. Which stable order an engine gives for an inconsistent comparator is not modelled.
- DessertManager.DessertManager.HandleAddDessert: a starting stock that `parseInt` cannot read (`NaN`) is treated as a save the store refuses. The store's actual handling of `NaN` is not part of this model.
- The grouping reductions use customer names and table headings as keys of a plain object (src/components/AttendanceSummary.tsx:42-50, src/components/AdminControls.tsx:35-43, src/pages/PrintOrders.tsx:21-22). The meal counts use meal names the same way (src/components/AttendanceSummary.tsx:60). A key naming a property every JavaScript object inherits, such as "constructor", "toString", "valueOf" or "__proto__", finds that property instead of no bucket. The grouping reductions then stop with a `TypeError` when they push onto it. In the meal counts, "constructor" gets a text in place of a count and "__proto__" is never counted. `Aggregation` treats every key as new until it is met, so it does not model this.
- Text.StrLe: compares strings character by character as Unicode scalar values. The default `sort` compares UTF-16 code units. The two orders differ when a character above U+FFFF is compared with one from U+E000 to U+FFFF.
- The `useOrders` hook in this snapshot has no `updateOrder`, although the orders page and the edit dialog use one. The payment dialog is modelled as the amount it sends (`OrdersList.PaymentPatch`). The edit dialog is modelled as the patch it sends plus the store's answer; how the order list changes afterwards is not modelled.
- The `isSubmitting` flag of the edit dialog is not modelled.
- The `createOrder` the order form calls is not part of this model. `OrderForm.OrderForm.HandleSubmit` takes it as a parameter.
- DessertManager.ResetPrefixEffect: assumes dessert ids are unique, as the store's primary key guarantees.
- EditOrderForm.SwapMovesOneUnit: assumes dessert ids are unique, as the store's primary key guarantees.
- The pay-it-forward components, routing, page markup and the fetch effects are not part of this model.
