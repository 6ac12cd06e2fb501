/** The items of a compiled script, and the `Inserter` that adds items to the list being built. */
module Items {

  /** `QVariant`, as far as items use it; `Enum` stands for the Qt enumerations. */
  datatype Value =
    | Null
    | Bool(flag: bool)
    | Int(number: int)
    | Str(text: string)
    | Map(entries: map<string, Value>)
    | Enum(kind: string, number: int)
    | Var(name: string)
    | Nested(item: Item)

  datatype Item = Item(target: Value, targetClass: string, method_: string, parameters: Value)

  /** The two-argument constructor of an item: no target. */
  function Statement(method_: string, parameters: Value): (item: Item)
  {
    Item(Null, "", method_, parameters)
  }

  predicate IsValid(item: Item) {
    item.method_ != ""
  }

  /** `QList::insert`: positions outside the list are taken as its nearer end. */
  function InsertAt<T>(list: seq<T>, position: int, x: T): (r: seq<T>)
    ensures |r| == |list| + 1
  {
    var p := if position < 0 then 0 else if position > |list| then |list| else position;
    list[..p] + [x] + list[p..]
  }

  lemma InsertAtIs<T>(list: seq<T>, before: seq<T>, after: seq<T>, position: int, x: T)
    requires list == before + after
    ensures position == |before| ==> InsertAt(list, position, x) == before + [x] + after
    ensures position <= 0 ==> InsertAt(list, position, x) == [x] + list
    ensures position >= |list| ==> InsertAt(list, position, x) == list + [x]
  {
    assert position == |before| ==> list[..position] == before && list[position..] == after;
  }

  datatype Position = Beginning | BeforeCurrentItem

  /** The list being built, and where the inserter believes it stands in it. */
  datatype Output = Output(items: seq<Item>, originalStart: int, itemIndex: int, appendedItems: int) {

    function Insert(item: Item, position: Position): (r: Output)
      ensures r.itemIndex - |r.items| == itemIndex - |items|
    {
      match position
      case Beginning =>
        Output(InsertAt(items, originalStart, item), originalStart + 1, itemIndex + 1, appendedItems)
      case BeforeCurrentItem =>
        Output(InsertAt(items, itemIndex, item), originalStart, itemIndex + 1, appendedItems)
    }

    function Next(): (r: Output)
    {
      Output(items, originalStart, itemIndex + appendedItems + 1, 0)
    }

    function Reset(): (r: Output)
    {
      Output(items, 0, |items| - 1, 0)
    }

    function Append(item: Item): (r: Output)
    {
      this.(items := items + [item])
    }

    function Clear(): (r: Output)
    {
      this.(items := [])
    }
  }

  class ItemList {
    var items: seq<Item>

    constructor (items: seq<Item>)
      ensures this.items == items
    {
      this.items := items;
    }
  }

  class Inserter {
    const rootList: ItemList
    var originalStart: int
    var itemIndex: int
    var appendedItems: int

    constructor (rootList: ItemList)
      ensures this.rootList == rootList && Now() == Output(rootList.items, 0, |rootList.items| - 1, 0)
    {
      this.rootList := rootList;
      originalStart, itemIndex, appendedItems := 0, |rootList.items| - 1, 0;
    }

    function Now(): (r: Output)
      reads this, rootList
    {
      Output(rootList.items, originalStart, itemIndex, appendedItems)
    }

    method Reset()
      modifies this
      ensures Now() == old(Now()).Reset()
    {
      originalStart := 0;
      itemIndex := |rootList.items| - 1;
      appendedItems := 0;
    }

    method Insert(item: Item, position: Position)
      modifies this, rootList
      ensures Now() == old(Now()).Insert(item, position)
      ensures itemIndex - |rootList.items| == old(itemIndex - |rootList.items|)
    {
      match position
      case Beginning =>
        rootList.items := InsertAt(rootList.items, originalStart, item);
        originalStart := originalStart + 1;
        itemIndex := itemIndex + 1;
      case BeforeCurrentItem =>
        rootList.items := InsertAt(rootList.items, itemIndex, item);
        itemIndex := itemIndex + 1;
    }

    method Next()
      modifies this
      ensures Now() == old(Now()).Next()
    {
      itemIndex := itemIndex + appendedItems + 1;
      appendedItems := 0;
    }
  }
}
